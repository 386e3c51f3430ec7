// Current / work-in-progress alternates in the fiber arena
// (crates/fast-react-core/src/fiber_alternate.rs, with the storage it relies on:
// fiber_arena.rs, fiber.rs and fiber_id.rs in the same directory).
//
// The arena is a vector of generation-stamped slots with a free list.  The class
// rewrites it in place; each method is specified by a function on the arena's
// value, and the properties are proved about those functions.
module FiberArena {
  import opened Wrappers

  const MAX_GENERATION: nat := 0xFFFF_FFFF_FFFF_FFFF

  datatype FiberId = FiberId(arena: nat, slot: nat, generation: nat)

  datatype Links = Links(return_: Option<FiberId>, child: Option<FiberId>, sibling: Option<FiberId>, index: nat)

  // `memo` stands for the handles and lanes that a clone copies unchanged.
  datatype FiberNode = FiberNode(id: FiberId, tag: nat, key: Option<string>, mode: nat, links: Links,
                                 alternate: Option<FiberId>, pendingProps: nat, memo: nat,
                                 flags: nat, subtreeFlags: nat, deletions: Option<nat>)

  datatype SlotEntry = SlotEntry(generation: nat, node: Option<FiberNode>)

  datatype Arena = Arena(id: nat, slots: seq<SlotEntry>, vacant: seq<nat>, deletionLists: seq<seq<FiberId>>)

  datatype Error =
    | WrongArena | InvalidSlot | StaleGeneration | VacantSlot | SelfLink
    | NonReciprocal(fiber: FiberId, other: FiberId)
    | IdentityMismatch(fiber: FiberId, other: FiberId)
    | ReplacementIdMismatch(expected: FiberId, actual: FiberId)
    | LinkedFiberCannotBeReclaimed | RetainedByDeletionList | GenerationOverflow

  datatype Result<+T> = Ok(value: T) | Err(error: Error)

  const NO_LINKS := Links(None, None, None, 0)

  function NewNode(id: FiberId, tag: nat, key: Option<string>, props: nat, mode: nat): FiberNode {
    FiberNode(id, tag, key, mode, NO_LINKS, None, props, 0, 0, 0, None)
  }

  // clone_for_alternate: a clone under another id that points back at its source.
  function CloneForAlternate(node: FiberNode, id: FiberId, props: nat): FiberNode {
    node.(id := id, pendingProps := props, links := NO_LINKS.(index := node.links.index),
          alternate := Some(node.id), flags := 0, subtreeFlags := 0, deletions := None)
  }

  // ---------- reading the arena ----------

  // validate_fiber_id
  function IdError(a: Arena, id: FiberId): Option<Error> {
    if id.arena != a.id then Some(WrongArena)
    else if id.slot >= |a.slots| then Some(InvalidSlot)
    else if a.slots[id.slot].generation != id.generation then Some(StaleGeneration)
    else if a.slots[id.slot].node.None? then Some(VacantSlot)
    else None
  }

  predicate Live(a: Arena, id: FiberId) {
    IdError(a, id).None?
  }

  function Get(a: Arena, id: FiberId): FiberNode
    requires Live(a, id)
  {
    a.slots[id.slot].node.value
  }

  // The identifier of the node in slot i.
  function IdAt(a: Arena, i: nat): FiberId
    requires i < |a.slots|
  {
    FiberId(a.id, i, a.slots[i].generation)
  }

  function LiveCount(slots: seq<SlotEntry>): nat {
    if slots == [] then 0
    else LiveCount(slots[..|slots| - 1]) + (if slots[|slots| - 1].node.Some? then 1 else 0)
  }

  predicate Retained(a: Arena, id: FiberId) {
    exists i :: 0 <= i < |a.deletionLists| && id in a.deletionLists[i]
  }

  predicate SameIdentity(x: FiberNode, y: FiberNode) {
    x.tag == y.tag && x.key == y.key
  }

  // validate_alternate_pair on two live ids
  function PairError(a: Arena, x: FiberId, y: FiberId): Option<Error> {
    if IdError(a, x).Some? then IdError(a, x)
    else if IdError(a, y).Some? then IdError(a, y)
    else if x == y then Some(SelfLink)
    else if !SameIdentity(Get(a, x), Get(a, y)) then Some(IdentityMismatch(x, y))
    else if Get(a, x).alternate != Some(y) then Some(NonReciprocal(x, y))
    else if Get(a, y).alternate != Some(x) then Some(NonReciprocal(y, x))
    else None
  }

  // ---------- the operations, by reference ----------

  function Put(a: Arena, node: FiberNode): Arena
    requires Live(a, node.id)
  {
    a.(slots := a.slots[node.id.slot := SlotEntry(node.id.generation, Some(node))])
  }

  // The slot a new fiber gets: the last vacated one, or a new one at the end.
  function NextSlot(a: Arena): nat {
    if a.vacant == [] then |a.slots| else a.vacant[|a.vacant| - 1]
  }

  function NextId(a: Arena): FiberId {
    var slot := NextSlot(a);
    FiberId(a.id, slot, if slot < |a.slots| then a.slots[slot].generation else 0)
  }

  // The arena after placing `node` in the next slot.
  function Place(a: Arena, node: FiberNode): Arena {
    var entry := SlotEntry(node.id.generation, Some(node));
    if a.vacant == [] then a.(slots := a.slots + [entry])
    else
      var slot := NextSlot(a);
      if slot < |a.slots| then
        a.(slots := a.slots[slot := entry], vacant := a.vacant[..|a.vacant| - 1])
      else a
  }

  function Create(a: Arena, tag: nat, key: Option<string>, props: nat, mode: nat): Arena {
    Place(a, NewNode(NextId(a), tag, key, props, mode))
  }

  function WithAlternate(a: Arena, id: FiberId, alternate: FiberId): Arena
    requires Live(a, id)
  {
    Put(a, Get(a, id).(id := id, alternate := Some(alternate)))
  }

  function LinkError(a: Arena, x: FiberId, y: FiberId): Option<Error> {
    if IdError(a, x).Some? then IdError(a, x)
    else if IdError(a, y).Some? then IdError(a, y)
    else if x == y then Some(SelfLink)
    else if !SameIdentity(Get(a, x), Get(a, y)) then Some(IdentityMismatch(x, y))
    else None
  }

  function Link(a: Arena, x: FiberId, y: FiberId): Arena {
    if LinkError(a, x, y).Some? then a else WithAlternate(WithAlternate(a, x, y), y, x)
  }

  function WipResult(a: Arena, current: FiberId): Result<FiberId> {
    if IdError(a, current).Some? then Err(IdError(a, current).value)
    else match Get(a, current).alternate
      case None => Ok(NextId(a))
      case Some(existing) =>
        if PairError(a, current, existing).Some? then Err(PairError(a, current, existing).value)
        else Ok(existing)
  }

  // The work-in-progress node is a clone of current under the partner's id; in a
  // fresh pair current is pointed at it.
  function Wip(a: Arena, current: FiberId, props: nat): Arena {
    if WipResult(a, current).Err? then a
    else
      var wip := WipResult(a, current).value;
      var clone := CloneForAlternate(Get(a, current), wip, props);
      if Get(a, current).alternate.Some? then Put(a, clone)
      else
        var placed := Place(a, clone);
        if Live(placed, current) then WithAlternate(placed, current, wip) else placed
  }

  function ReclaimError(a: Arena, id: FiberId): Option<Error> {
    if IdError(a, id).Some? then IdError(a, id)
    else
      var node := Get(a, id);
      if node.links.return_.Some? || node.links.child.Some? || node.links.sibling.Some?
         || node.alternate.Some? || node.deletions.Some? then Some(LinkedFiberCannotBeReclaimed)
      else if Retained(a, id) then Some(RetainedByDeletionList)
      else if id.generation >= MAX_GENERATION then Some(GenerationOverflow)
      else None
  }

  function Reclaim(a: Arena, id: FiberId): Arena {
    if ReclaimError(a, id).Some? then a
    else a.(slots := a.slots[id.slot := SlotEntry(id.generation + 1, None)], vacant := a.vacant + [id.slot])
  }

  // Edits made elsewhere (children, flags, deletions, lanes, props): they keep
  // a node's id, tag, key and alternate.
  function Edit(a: Arena, id: FiberId, node: FiberNode): Arena {
    if !Live(a, id) then a
    else Put(a, node.(id := id, tag := Get(a, id).tag, key := Get(a, id).key, alternate := Get(a, id).alternate))
  }

  // ---------- the invariant ----------

  // Nodes know where they are, and the free list is exactly the empty slots.
  predicate Stored(a: Arena) {
    && (forall i :: 0 <= i < |a.slots| && a.slots[i].node.Some? ==> a.slots[i].node.value.id == IdAt(a, i))
    && (forall k :: 0 <= k < |a.vacant| ==> a.vacant[k] < |a.slots| && a.slots[a.vacant[k]].node.None?)
    && (forall j, k :: 0 <= j < k < |a.vacant| ==> a.vacant[j] != a.vacant[k])
  }

  // The alternate of a live fiber is another live fiber with the same tag and
  // key, whose alternate is the first one.
  predicate Paired(a: Arena, id: FiberId) {
    Live(a, id) ==>
      match Get(a, id).alternate
      case None => true
      case Some(other) => PairError(a, id, other).None?
  }

  ghost predicate Involution(a: Arena) {
    forall id :: Paired(a, id)
  }

  ghost predicate Inv(a: Arena) {
    Stored(a) && Involution(a)
  }

  // ---------- the class ----------

  class FiberArena {
    const id: nat
    var slots: seq<SlotEntry>
    var vacantSlots: seq<nat>
    var deletionLists: seq<seq<FiberId>>

    constructor (id: nat)
      ensures State() == Arena(id, [], [], [])
    {
      this.id, slots, vacantSlots, deletionLists := id, [], [], [];
    }

    function State(): Arena
      reads this
    {
      Arena(id, slots, vacantSlots, deletionLists)
    }

    method SetAlternate(fiber: FiberId, alternate: FiberId)
      requires Stored(State()) && Live(State(), fiber)
      modifies this`slots
      ensures State() == WithAlternate(old(State()), fiber, alternate)
    {
      var entry := slots[fiber.slot];
      slots := slots[fiber.slot := entry.(node := Some(entry.node.value.(alternate := Some(alternate))))];
    }

    // Afterwards the slot holds the node, without a deletion list.
    method ReplaceFiberNode(fiber: FiberId, node: FiberNode) returns (r: Result<()>)
      modifies this`slots
      ensures r == if !Live(old(State()), fiber) then Err(IdError(old(State()), fiber).value)
                   else if node.id != fiber then Err(ReplacementIdMismatch(fiber, node.id)) else Ok(())
      ensures r.Err? ==> State() == old(State())
      ensures r.Ok? ==> State() == Put(old(State()), node.(deletions := None))
    {
      var error := IdError(State(), fiber);
      if error.Some? { return Err(error.value); }
      if node.id != fiber { return Err(ReplacementIdMismatch(fiber, node.id)); }
      slots := slots[fiber.slot := slots[fiber.slot].(node := Some(node.(deletions := None)))];
      r := Ok(());
    }

    method CreateFiber(tag: nat, key: Option<string>, props: nat, mode: nat) returns (fiber: FiberId)
      requires Stored(State())
      modifies this`slots, this`vacantSlots
      ensures fiber == NextId(old(State()))
      ensures State() == Create(old(State()), tag, key, props, mode)
    {
      var slot := |slots|;
      if vacantSlots != [] {
        slot := vacantSlots[|vacantSlots| - 1];
        vacantSlots := vacantSlots[..|vacantSlots| - 1];
      } else {
        slots := slots + [SlotEntry(0, None)];
      }
      fiber := FiberId(id, slot, slots[slot].generation);
      slots := slots[slot := slots[slot].(node := Some(NewNode(fiber, tag, key, props, mode)))];
    }

    method LinkAlternates(first: FiberId, second: FiberId) returns (r: Result<()>)
      requires Stored(State())
      modifies this`slots
      ensures State() == Link(old(State()), first, second)
      ensures r.Err? ==> State() == old(State())
      ensures r == match LinkError(old(State()), first, second) case Some(e) => Err(e) case None => Ok(())
    {
      var error := IdError(State(), first);
      if error.Some? { return Err(error.value); }
      error := IdError(State(), second);
      if error.Some? { return Err(error.value); }
      if first == second { return Err(SelfLink); }
      if !SameIdentity(Get(State(), first), Get(State(), second)) {
        return Err(IdentityMismatch(first, second));
      }
      SetAlternate(first, second);
      SetAlternate(second, first);
      r := Ok(());
    }

    method CreateWorkInProgress(current: FiberId, props: nat) returns (r: Result<FiberId>)
      requires Stored(State())
      modifies this`slots, this`vacantSlots
      ensures State() == Wip(old(State()), current, props)
      ensures r.Err? ==> State() == old(State())
      ensures r == WipResult(old(State()), current)
    {
      var error := IdError(State(), current);
      if error.Some? { return Err(error.value); }
      var node := Get(State(), current);
      if node.alternate.Some? {
        var existing := node.alternate.value;
        error := PairError(State(), current, existing);
        if error.Some? { return Err(error.value); }
        var replaced := ReplaceFiberNode(existing, CloneForAlternate(node, existing, props));
        assert replaced.Ok?;
        SetAlternate(current, existing);
        assert slots == Wip(old(State()), current, props).slots;
        return Ok(existing);
      }
      var wip := CreateFiber(node.tag, node.key, props, node.mode);
      var replaced := ReplaceFiberNode(wip, CloneForAlternate(node, wip, props));
      assert replaced.Ok?;
      SetAlternate(current, wip);
      assert slots == Wip(old(State()), current, props).slots;
      r := Ok(wip);
    }

    method ReclaimFiber(fiber: FiberId) returns (r: Result<()>)
      requires Stored(State())
      modifies this`slots, this`vacantSlots
      ensures State() == Reclaim(old(State()), fiber)
      ensures r.Err? ==> State() == old(State())
      ensures r == match ReclaimError(old(State()), fiber) case Some(e) => Err(e) case None => Ok(())
    {
      var error := ReclaimError(State(), fiber);
      if error.Some? { return Err(error.value); }
      slots := slots[fiber.slot := SlotEntry(slots[fiber.slot].generation + 1, None)];
      vacantSlots := vacantSlots + [fiber.slot];
      r := Ok(());
    }
  }
}
