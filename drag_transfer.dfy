/**
  The drag-and-drop transfer of an item between inventory slots
  (ItemDragHandler: OnBeginDrag, OnDrag, OnEndDrag).

  Every Slot object of the scene is a cell of one array holding its
  `currentItem`; an item is named by the id of its GameObject. The transforms
  the handler touches are kept as two maps: the parent of each item and where
  it sits inside that parent. The CanvasGroup of the dragged item becomes two
  booleans (raycasts blocked, translucent); the pixel geometry is collapsed to
  "centred in its parent" or "at a free point".
*/
module DragTransfer {
  import opened Wrappers

  /** The GameObject of an item. */
  type ItemId = nat
  /** The index of a Slot object in the panel. */
  type SlotId = nat

  /** What a transform's parent is: nothing (C# null), the canvas root, a Slot, or another object. */
  datatype Parent = NoParent | CanvasRoot | SlotCell(slot: SlotId) | PlainObject(id: nat)

  /** The GameObject reported as `pointerEnter` on release. */
  datatype PointerTarget =
    | NothingUnder                // pointerEnter is null
    | SlotObject(slot: SlotId)    // the Slot's own GameObject
    | InsideSlot(slot: SlotId)    // a child object of a Slot (an occupant's image, say)
    | Unrelated(id: nat)          // an object neither a Slot nor inside one

  /** The anchored position of an item inside its parent. */
  datatype Anchor = Centred | Free(x: int, y: int)

  /** What OnEndDrag did. */
  datatype DropOutcome =
    | Moved(origin: SlotId, target: SlotId)
    | Swapped(origin: SlotId, target: SlotId, occupant: ItemId)
    | Reverted
    | NullReference   // the original parent carries no Slot: line 40, 46 or 52 throws

  /** `GetComponent<Slot>()` on the original parent. */
  function SlotOfParent(p: Parent): (r: Option<SlotId>)
    ensures r.Some? <==> p.SlotCell?
    ensures r.Some? ==> p == SlotCell(r.value)
  {
    if p.SlotCell? then Some(p.slot) else None
  }

  /**
    `pointerEnter?.GetComponent<Slot>()`: only the Slot's own object yields
    a Slot. The fallback to the nearest ancestor Slot sits inside the branch
    where a Slot was already found, so a child of a Slot yields none.
  */
  function DropSlot(t: PointerTarget): (r: Option<SlotId>)
    ensures r.Some? <==> t.SlotObject?
    ensures r.Some? ==> t == SlotObject(r.value)
    ensures t.InsideSlot? ==> r.None?
  {
    if t.SlotObject? then Some(t.slot) else None
  }

  /** Every slot index that the original parent or the pointer target names exists. */
  predicate RefersWithin(n: nat, originalParent: Parent, under: PointerTarget)
  {
    (originalParent.SlotCell? ==> originalParent.slot < n) &&
    (under.SlotObject? ==> under.slot < n)
  }

  /** Which of the outcomes a release over `under` takes. */
  function Resolve(s: seq<Option<ItemId>>, originalParent: Parent, under: PointerTarget): (r: DropOutcome)
    requires RefersWithin(|s|, originalParent, under)
    ensures r.Reverted? <==> DropSlot(under).None?
    ensures r.NullReference? <==> DropSlot(under).Some? && SlotOfParent(originalParent).None?
    ensures r.Swapped? ==>
      under == SlotObject(r.target) && originalParent == SlotCell(r.origin) && s[r.target] == Some(r.occupant)
    ensures r.Moved? ==>
      under == SlotObject(r.target) && originalParent == SlotCell(r.origin) && s[r.target].None?
  {
    match DropSlot(under)
    case None => Reverted
    case Some(t) =>
      match SlotOfParent(originalParent)
      case None => NullReference
      case Some(o) => if s[t].Some? then Swapped(o, t, s[t].value) else Moved(o, t)
  }

  /** Slot contents after `item`, taken from `origin`, is placed in `target` (lines 43-56). */
  function Dropped(s: seq<Option<ItemId>>, item: ItemId, origin: SlotId, target: SlotId): (r: seq<Option<ItemId>>)
    requires origin < |s| && target < |s|
    ensures |r| == |s|
  {
    if s[target].Some? then s[origin := s[target]][target := Some(item)]
    else s[origin := None][target := Some(item)]
  }

  /** Slot contents after the whole of OnEndDrag. */
  function SlotsAfterRelease(s: seq<Option<ItemId>>, item: ItemId, originalParent: Parent, under: PointerTarget): (r: seq<Option<ItemId>>)
    requires RefersWithin(|s|, originalParent, under)
    ensures |r| == |s|
  {
    match Resolve(s, originalParent, under)
    case Moved(o, t) => Dropped(s, item, o, t)
    case Swapped(o, t, _) => Dropped(s, item, o, t)
    case Reverted => s
    case NullReference => s
  }

  /** Item parents after OnEndDrag with outcome `out`. */
  function ParentsAfterRelease(parents: map<ItemId, Parent>, item: ItemId, originalParent: Parent, out: DropOutcome): (r: map<ItemId, Parent>)
    ensures out.NullReference? ==> r == parents
    ensures out.Reverted? ==> item in r && r[item] == originalParent
    ensures (out.Moved? || out.Swapped?) ==> item in r && r[item] == SlotCell(out.target)
    ensures out.Swapped? && out.occupant != item ==> out.occupant in r && r[out.occupant] == SlotCell(out.origin)
    ensures forall x :: x in parents && x != item && !(out.Swapped? && x == out.occupant) ==>
      x in r && r[x] == parents[x]
  {
    match out
    case Moved(_, t) => parents[item := SlotCell(t)]
    case Swapped(o, t, occ) => parents[occ := SlotCell(o)][item := SlotCell(t)]
    case Reverted => parents[item := originalParent]
    case NullReference => parents
  }

  /** Item anchors after OnEndDrag with outcome `out`. */
  function AnchorsAfterRelease(anchors: map<ItemId, Anchor>, item: ItemId, out: DropOutcome): (r: map<ItemId, Anchor>)
    ensures out.NullReference? ==> r == anchors
    ensures !out.NullReference? ==> item in r && r[item] == Centred
    ensures out.Swapped? ==> out.occupant in r && r[out.occupant] == Centred
    ensures forall x :: x in anchors && x != item && !(out.Swapped? && x == out.occupant) ==>
      x in r && r[x] == anchors[x]
  {
    match out
    case Swapped(_, _, occ) => anchors[occ := Centred][item := Centred]
    case NullReference => anchors
    case _ => anchors[item := Centred]
  }

  /** No item is the currentItem of two slots. */
  predicate SingleOwner(s: seq<Option<ItemId>>)
  {
    forall i, j :: 0 <= i < |s| && 0 <= j < |s| && s[i].Some? && s[i] == s[j] ==> i == j
  }

  /** The number of occupied slots. */
  function Occupied(s: seq<Option<ItemId>>): (r: nat)
  {
    if s == [] then 0 else (if s[0].Some? then 1 else 0) + Occupied(s[1..])
  }

  lemma {:induction false} OccupiedUpdate(s: seq<Option<ItemId>>, k: nat, v: Option<ItemId>)
    requires k < |s|
    ensures Occupied(s[k := v]) + (if s[k].Some? then 1 else 0) == Occupied(s) + (if v.Some? then 1 else 0)
  {
    if k == 0 {
      assert s[k := v][1..] == s[1..];
    } else {
      assert s[k := v][1..] == s[1..][k - 1 := v];
      OccupiedUpdate(s[1..], k - 1, v);
    }
  }

  /** Dropping on an empty slot moves the item there and clears the source slot. */
  lemma DropOnEmptyMoves(s: seq<Option<ItemId>>, item: ItemId, origin: SlotId, target: SlotId)
    requires origin < |s| && target < |s| && origin != target
    requires s[target].None?
    ensures Dropped(s, item, origin, target)[target] == Some(item)
    ensures Dropped(s, item, origin, target)[origin] == None
  {
  }

  /** Dropping on an occupied slot swaps: the source receives the former occupant. */
  lemma DropOnOccupiedSwaps(s: seq<Option<ItemId>>, item: ItemId, origin: SlotId, target: SlotId, occupant: ItemId)
    requires origin < |s| && target < |s| && origin != target
    requires s[target] == Some(occupant)
    ensures Dropped(s, item, origin, target)[target] == Some(item)
    ensures Dropped(s, item, origin, target)[origin] == Some(occupant)
  {
  }

  /** A drop writes only the source and the target slot. */
  lemma DropTouchesTwoSlots(s: seq<Option<ItemId>>, item: ItemId, origin: SlotId, target: SlotId, k: nat)
    requires origin < |s| && target < |s| && k < |s|
    requires k != origin && k != target
    ensures Dropped(s, item, origin, target)[k] == s[k]
  {
  }

  /** Dropping an item back on the slot that holds it changes nothing. */
  lemma DropOnOwnSlotKeeps(s: seq<Option<ItemId>>, item: ItemId, origin: SlotId)
    requires origin < |s| && s[origin] == Some(item)
    ensures Dropped(s, item, origin, origin) == s
  {
  }

  /** Swapping A onto B's slot and then dragging A back restores both slots. */
  lemma SwapThenSwapBack(s: seq<Option<ItemId>>, a: ItemId, b: ItemId, sa: SlotId, sb: SlotId)
    requires sa < |s| && sb < |s| && sa != sb
    requires s[sa] == Some(a) && s[sb] == Some(b)
    ensures Dropped(s, a, sa, sb)[sa] == Some(b) && Dropped(s, a, sa, sb)[sb] == Some(a)
    ensures Dropped(Dropped(s, a, sa, sb), a, sb, sa) == s
  {
  }

  /** Moving to an empty slot and then dragging back restores both slots. */
  lemma MoveThenMoveBack(s: seq<Option<ItemId>>, a: ItemId, sa: SlotId, sb: SlotId)
    requires sa < |s| && sb < |s| && sa != sb
    requires s[sa] == Some(a) && s[sb] == None
    ensures Dropped(Dropped(s, a, sa, sb), a, sb, sa) == s
  {
  }

  /**
    If the source slot holds the dragged item and no item has two owners,
    then after a drop no item has two owners and as many slots are occupied.
  */
  lemma {:induction false} DropKeepsOwnership(s: seq<Option<ItemId>>, item: ItemId, origin: SlotId, target: SlotId)
    requires origin < |s| && target < |s|
    requires s[origin] == Some(item) && SingleOwner(s)
    ensures SingleOwner(Dropped(s, item, origin, target))
    ensures Occupied(Dropped(s, item, origin, target)) == Occupied(s)
  {
    var r := Dropped(s, item, origin, target);
    var mid := if s[target].Some? then s[origin := s[target]] else s[origin := None];
    assert r == mid[target := Some(item)];
    OccupiedUpdate(s, origin, mid[origin]);
    OccupiedUpdate(mid, target, Some(item));
    // every slot now holds what the slot it exchanged with held before
    forall k | 0 <= k < |r|
      ensures r[k] == s[Exchanged(k, origin, target)]
    {
    }
    forall i, j | 0 <= i < |r| && 0 <= j < |r| && r[i].Some? && r[i] == r[j]
      ensures i == j
    {
      assert s[Exchanged(i, origin, target)] == s[Exchanged(j, origin, target)];
    }
  }

  /** The slot whose former content slot `k` holds after a drop from `origin` onto `target`. */
  function Exchanged(k: nat, origin: SlotId, target: SlotId): (r: nat)
  {
    if k == target then origin else if k == origin then target else k
  }

  /** A release that finds no Slot under the pointer, a child of a Slot included, changes no slot. */
  lemma ReleaseOffSlotReverts(s: seq<Option<ItemId>>, item: ItemId, originalParent: Parent, under: PointerTarget)
    requires RefersWithin(|s|, originalParent, under)
    requires under.NothingUnder? || under.InsideSlot? || under.Unrelated?
    ensures Resolve(s, originalParent, under) == Reverted
    ensures SlotsAfterRelease(s, item, originalParent, under) == s
    ensures forall parents: map<ItemId, Parent> ::
      ParentsAfterRelease(parents, item, originalParent, Resolve(s, originalParent, under))[item] == originalParent
  {
  }

  /** The whole release keeps single ownership and the number of occupied slots. */
  lemma {:induction false} ReleaseKeepsOwnership(s: seq<Option<ItemId>>, item: ItemId, originalParent: Parent, under: PointerTarget)
    requires RefersWithin(|s|, originalParent, under)
    requires originalParent.SlotCell? && s[originalParent.slot] == Some(item) && SingleOwner(s)
    ensures SingleOwner(SlotsAfterRelease(s, item, originalParent, under))
    ensures Occupied(SlotsAfterRelease(s, item, originalParent, under)) == Occupied(s)
  {
    match Resolve(s, originalParent, under)
    case Moved(o, t) => DropKeepsOwnership(s, item, o, t);
    case Swapped(o, t, _) => DropKeepsOwnership(s, item, o, t);
    case Reverted =>
    case NullReference =>
  }

  /** The Slot objects and the transforms of the items placed in them. */
  class InventoryPanel {
    /** `currentItem` of each Slot. */
    const slots: array<Option<ItemId>>
    /** `transform.parent` of each item. */
    var parentOf: map<ItemId, Parent>
    /** `anchoredPosition` of each item, collapsed. */
    var anchorOf: map<ItemId, Anchor>

    constructor (contents: seq<Option<ItemId>>, parents: map<ItemId, Parent>, anchors: map<ItemId, Anchor>)
      ensures slots[..] == contents && fresh(slots)
      ensures parentOf == parents && anchorOf == anchors
    {
      slots := new Option<ItemId>[|contents|](i requires 0 <= i < |contents| => contents[i]);
      parentOf := parents;
      anchorOf := anchors;
    }
  }

  /** The component on a draggable item. */
  class ItemDragHandler {
    /** The GameObject this component is on. */
    const item: ItemId
    var originalParent: Parent
    /** `canvasGroup.blocksRaycasts`. */
    var blocksRaycasts: bool
    /** `canvasGroup.alpha` is the drag opacity 0.6 rather than 1. */
    var translucent: bool

    constructor (item: ItemId)
      ensures this.item == item && originalParent == NoParent
      ensures blocksRaycasts && !translucent
    {
      this.item := item;
      originalParent := NoParent;
      blocksRaycasts := true;
      translucent := false;
    }

    /** The item is being dragged: hit-testing is off and it is drawn translucent. */
    predicate InFlight()
      reads this
    {
      !blocksRaycasts && translucent
    }

    /** Remember the parent, lift the item to the canvas root, and mark it in flight. */
    method OnBeginDrag(panel: InventoryPanel)
      requires item in panel.parentOf
      modifies this, panel
      ensures originalParent == old(panel.parentOf[item])
      ensures InFlight()
      ensures panel.parentOf == old(panel.parentOf)[item := CanvasRoot]
      ensures panel.anchorOf == old(panel.anchorOf)
      ensures panel.slots[..] == old(panel.slots[..])
    {
      originalParent := panel.parentOf[item];
      panel.parentOf := panel.parentOf[item := CanvasRoot];
      blocksRaycasts := false;
      translucent := true;
    }

    /** The item follows the pointer; nothing else moves. */
    method OnDrag(panel: InventoryPanel, x: int, y: int)
      modifies panel
      ensures panel.anchorOf == old(panel.anchorOf)[item := Free(x, y)]
      ensures panel.parentOf == old(panel.parentOf)
      ensures panel.slots[..] == old(panel.slots[..])
    {
      panel.anchorOf := panel.anchorOf[item := Free(x, y)];
    }

    /** Resolve the release: swap, move or revert, and end the in-flight state. */
    method OnEndDrag(panel: InventoryPanel, under: PointerTarget) returns (out: DropOutcome)
      requires RefersWithin(panel.slots.Length, originalParent, under)
      modifies this, panel, panel.slots
      ensures !InFlight() && blocksRaycasts && !translucent
      ensures originalParent == old(originalParent)
      ensures out == Resolve(old(panel.slots[..]), originalParent, under)
      ensures panel.slots[..] == SlotsAfterRelease(old(panel.slots[..]), item, originalParent, under)
      ensures panel.parentOf == ParentsAfterRelease(old(panel.parentOf), item, originalParent, out)
      ensures panel.anchorOf == AnchorsAfterRelease(old(panel.anchorOf), item, out)
    {
      blocksRaycasts := true;
      translucent := false;
      var dropSlot := DropSlot(under);
      if dropSlot.Some? {
        // The ancestor-Slot fallback of the source is guarded by dropSlot == null
        // inside this branch, so it never runs and is not modelled.
        var originalSlot := SlotOfParent(originalParent);
        if originalSlot.None? {
          out := NullReference;
          return;
        }
        var t, o := dropSlot.value, originalSlot.value;
        if panel.slots[t].Some? {
          var occupant := panel.slots[t].value;
          panel.parentOf := panel.parentOf[occupant := SlotCell(o)];
          panel.slots[o] := panel.slots[t];
          panel.anchorOf := panel.anchorOf[occupant := Centred];
          out := Swapped(o, t, occupant);
        } else {
          panel.slots[o] := None;
          out := Moved(o, t);
        }
        panel.parentOf := panel.parentOf[item := SlotCell(t)];
        panel.slots[t] := Some(item);
      } else {
        panel.parentOf := panel.parentOf[item := originalParent];
        out := Reverted;
      }
      panel.anchorOf := panel.anchorOf[item := Centred];
    }
  }
}
