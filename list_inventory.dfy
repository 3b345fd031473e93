/**
  The list-style inventory (the MonoBehaviour `Inventory` with its serialisable
  `Item` entries): an append-only list that raises `onInventoryChanged` after
  every change and once at start.

  The event's invocations are recorded as the contents of `items` at the
  moment each fired; `hasEvent` says whether `onInventoryChanged` is assigned
  (the `?.` in the source skips the call when it is null).
*/
module ListInventory {

  /** One inventory entry. */
  datatype Item = Item(itemName: string, value: int)

  class Inventory {
    var items: seq<Item>
    const hasEvent: bool
    /** The contents of `items` seen by each invocation of onInventoryChanged. */
    var changeLog: seq<seq<Item>>

    constructor (hasEvent: bool)
      ensures items == [] && changeLog == [] && this.hasEvent == hasEvent
    {
      items := [];
      this.hasEvent := hasEvent;
      changeLog := [];
    }

    /** Announce the initial contents once. */
    method Start()
      modifies this
      ensures items == old(items)
      ensures changeLog == old(changeLog) + (if hasEvent then [items] else [])
    {
      if hasEvent {
        changeLog := changeLog + [items];
      }
    }

    /** Append `item` (there is no capacity limit, so this always succeeds), then announce the change. */
    method AddItem(item: Item)
      modifies this
      ensures items == old(items) + [item]
      ensures |items| == |old(items)| + 1 && items[|items| - 1] == item
      ensures forall k :: 0 <= k < |old(items)| ==> items[k] == old(items)[k]
      ensures changeLog == old(changeLog) + (if hasEvent then [items] else [])
    {
      items := items + [item];
      if hasEvent {
        changeLog := changeLog + [items];
      }
    }
  }
}
