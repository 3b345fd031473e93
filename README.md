# Item handling in a Unity inventory, modelled in Dafny

This project models the item-handling part of a small Unity game, which covers:

- moving items between inventory slots by drag and drop (`ItemDragHandler`);
- the pickup notification controller, a register-once singleton that keeps a bounded queue of popups (`ItemPickupUIController`);
- the pickup pipeline from a world collider to the inventory (`PlayerItemCollector`, `Item`);
- the list-style inventory with its change event (`Inventory`);
- saving and loading the player's position and inventory (`SaveController`).

There is one module per source file:

| module | file | source |
|---|---|---|
| `DragTransfer` | `drag_transfer.dfy` | Assets/Scripts/Inventory/ItemDragHandler.cs |
| `PickupPopups` | `pickup_popups.dfy` | Assets/Scripts/Inventory/ItemPickupUIController.cs |
| `WorldItems` | `world_items.dfy` | Assets/Scripts/Item.cs |
| `ItemCollection` | `item_collector.dfy` | Assets/Scripts/Inventory/PlayerItemCollector.cs |
| `ListInventory` | `list_inventory.dfy` | Assets/Script/Inventory.cs |
| `SaveSystem` | `save_controller.dfy` | Assets/Scripts/SaveController.cs |
| `Wrappers` | `wrappers.dfy` | (the `Option` type) |

Each class whose fields the source changes in place is a Dafny `class`. Its methods say in their `ensures` what the new state is, usually through a specification function on values (`Resolve`, `Dropped`, `Admit`, `Saved`, `Loaded`, `Reaction`). The properties that relate several calls are lemmas about those functions.

The source has two classes called `Item`. They are modelled as two distinct types:

- `WorldItems.Item` is the world MonoBehaviour, with `ID`, `Name`, `worldItemPrefab` and the sprite of its Image.
- `ListInventory.Item` is the serialisable entry, with `itemName` and `value`.

Notes on how the model follows the code:

- **Slots.** Every Slot's `currentItem` is one cell of an array of `Option<ItemId>`.
- **Drop target.** A release over a child of a slot, such as the image of the item already in that slot, counts as "no slot" and reverts. The code looks up the `Slot` component only on the object under the pointer. Its fallback to the nearest ancestor slot (ItemDragHandler.cs:36-39) sits inside the branch where a slot was already found, so that fallback never runs.
- **Null references.** Some null references in the code are modelled as outcomes rather than excluded by preconditions:
  - The drop handler's original parent may carry no `Slot` while a slot is under the pointer. Line 40, 46 or 52 then throws. No slot changes, raycasts and opacity are already restored, and the item is left at the canvas root without being recentred.
  - `Item.PickUp` on an object without an Image throws at line 19. In `OnTriggerEnter2D` this happens after `AddItem` has succeeded, so the world object is not destroyed.
- **Queue cap.** `maxPopups` is a public `int`. With `maxPopups <= 0` and an empty queue, the popup that a call enqueues is the one that call evicts. If the queue is not empty, the call evicts the oldest queued popup instead.
- **Capacity.** The list inventory's `AddItem` has no capacity check and always appends; the model follows the code.
- **No world drop or crafting.** The drag handler has no world-drop path, and this part of the code holds no recipe matching. Neither is modelled.

## Model

| member | source | states |
|---|---|---|
| `DragTransfer.ItemDragHandler.constructor` | Assets/Scripts/Inventory/ItemDragHandler.cs:7-8 | a handler starts with no original parent, raycasts blocked and full opacity |
| `DragTransfer.ItemDragHandler.OnBeginDrag` | Assets/Scripts/Inventory/ItemDragHandler.cs:14-20 | records the item's parent as `originalParent`, lifts the item to the canvas root, marks it in flight, and changes no slot's `currentItem` |
| `DragTransfer.ItemDragHandler.OnDrag` | Assets/Scripts/Inventory/ItemDragHandler.cs:22-25 | only the dragged item's position changes (to the pointer); parents and slots are untouched |
| `DragTransfer.ItemDragHandler.OnEndDrag` | Assets/Scripts/Inventory/ItemDragHandler.cs:27-64 | on every path raycasts and full opacity are restored. Slots, parents and anchors become `SlotsAfterRelease`, `ParentsAfterRelease` and `AnchorsAfterRelease` of the old state. The dragged item (and a swapped occupant) is centred except on the null-reference path |
| `DragTransfer.SlotOfParent` | Assets/Scripts/Inventory/ItemDragHandler.cs:40 | the original parent yields a Slot exactly when it is a Slot object, and then that Slot |
| `DragTransfer.DropSlot` | Assets/Scripts/Inventory/ItemDragHandler.cs:32-39 | a Slot is found exactly when the object under the pointer is itself a Slot. A child of a Slot yields none, because the ancestor fallback at lines 36-39 cannot run |
| `DragTransfer.ParentsAfterRelease` | Assets/Scripts/Inventory/ItemDragHandler.cs:46-61 | on a move or swap the dragged item's parent is the target slot. On a swap the occupant's parent is the source slot. On a revert the item returns to its original parent. The null-reference path changes no parent, and no other item's parent changes |
| `DragTransfer.AnchorsAfterRelease` | Assets/Scripts/Inventory/ItemDragHandler.cs:48-63 | the dragged item is centred on every path except the null-reference one. On a swap the occupant is centred too, and no other item moves |
| `DragTransfer.Resolve` | Assets/Scripts/Inventory/ItemDragHandler.cs:32-62 | the release reverts exactly when no Slot component is under the pointer. It throws exactly when a slot is found but the original parent has none. Otherwise it swaps with the target's occupant if the target is full and moves if it is empty |
| `DragTransfer.Dropped` | Assets/Scripts/Inventory/ItemDragHandler.cs:43-56 | a drop keeps the number of slots |
| `DragTransfer.SlotsAfterRelease` | Assets/Scripts/Inventory/ItemDragHandler.cs:32-62 | a release keeps the number of slots |
| `DragTransfer.DropOnEmptyMoves` | Assets/Scripts/Inventory/ItemDragHandler.cs:50-56 | after a drop on an empty slot, the target owns the dragged item and the source slot is empty |
| `DragTransfer.DropOnOccupiedSwaps` | Assets/Scripts/Inventory/ItemDragHandler.cs:43-56 | after a drop on an occupied slot, the target owns the dragged item and the source owns the former occupant |
| `DragTransfer.DropTouchesTwoSlots` | Assets/Scripts/Inventory/ItemDragHandler.cs:40-56 | every slot other than the source and the target keeps its item |
| `DragTransfer.DropOnOwnSlotKeeps` | Assets/Scripts/Inventory/ItemDragHandler.cs:43-56 | dropping an item on the slot that holds it leaves all slots unchanged |
| `DragTransfer.SwapThenSwapBack` | Assets/Scripts/Inventory/ItemDragHandler.cs:43-56 | swapping A (in S1) onto S2 (holding B) gives S1→B, S2→A. Dragging A back restores the original assignment |
| `DragTransfer.MoveThenMoveBack` | Assets/Scripts/Inventory/ItemDragHandler.cs:50-56 | moving an item to an empty slot and dragging it back restores the original assignment |
| `DragTransfer.OccupiedUpdate` | Assets/Scripts/Inventory/ItemDragHandler.cs:47-56 | writing one slot changes the occupied count by what was removed and what was put there |
| `DragTransfer.DropKeepsOwnership` | Assets/Scripts/Inventory/ItemDragHandler.cs:43-56 | suppose the source slot holds the dragged item and no item has two owners. Then after the drop no item has two owners and the number of occupied slots is unchanged |
| `DragTransfer.ReleaseOffSlotReverts` | Assets/Scripts/Inventory/ItemDragHandler.cs:32-62 | a release over nothing, over an object that is not a slot, or over a child of a slot reverts, changes no slot and returns the item to its original parent |
| `DragTransfer.ReleaseKeepsOwnership` | Assets/Scripts/Inventory/ItemDragHandler.cs:27-64 | under the same assumptions, every path of the release keeps single ownership and the occupied count |
| `PickupPopups.Admit` | Assets/Scripts/Inventory/ItemPickupUIController.cs:40-44 | the new popup goes to the tail and at most one popup is evicted, the oldest. Eviction happens exactly when the queue would exceed `maxPopups`. A queue within the cap stays within it. Below the cap the queue grows by exactly the new popup |
| `PickupPopups.NewPopup` | Assets/Scripts/Inventory/ItemPickupUIController.cs:33-39 | the popup's text is `itemName`. Its icon is set, to `itemIcon`, exactly when the prefab has an `ItemIcon` image |
| `PickupPopups.AdmitAllKeepsBound` | Assets/Scripts/Inventory/ItemPickupUIController.cs:40-44 | any series of pickups keeps a queue within a non-negative `maxPopups` within it |
| `PickupPopups.ControllerStatics.constructor` | Assets/Scripts/Inventory/ItemPickupUIController.cs:9 | `Instance` starts null |
| `PickupPopups.ItemPickupUIController.constructor` | Assets/Scripts/Inventory/ItemPickupUIController.cs:12-15 | `maxPopups` is 5 and `activePopups` starts empty |
| `PickupPopups.ItemPickupUIController.Awake` | Assets/Scripts/Inventory/ItemPickupUIController.cs:18-29 | the first Awake sets `Instance`. A later one leaves `Instance` unchanged and destroys the newcomer. The queue is untouched |
| `PickupPopups.ItemPickupUIController.ShowItemPickup` | Assets/Scripts/Inventory/ItemPickupUIController.cs:31-46 | instantiates exactly one popup (`NewPopup`). The queue becomes `Admit` of the old queue, and only the evicted popup is destroyed |
| `WorldItems.Item.constructor` | Assets/Scripts/Item.cs:8-10 | the item holds the given `ID`, `Name` and `worldItemPrefab` |
| `WorldItems.Item.UseItem` | Assets/Scripts/Item.cs:12-15 | the only effect is the log line "Using item" followed by `Name` |
| `WorldItems.Item.PickUp` | Assets/Scripts/Item.cs:17-24 | throws exactly when the object has no Image. Otherwise, with a registered controller, exactly one `ShowItemPickup` carries `Name` and the sprite. With no controller, or when it throws, nothing changes. `ID`, `Name` and `worldItemPrefab` are unchanged |
| `ItemCollection.Reaction` | Assets/Scripts/Inventory/PlayerItemCollector.cs:14-31 | `AddItem` is called exactly when the collider is tagged "Ingredient" and has an Item. `PickUp` is called exactly when `AddItem` returned true. `Destroy` happens exactly when `PickUp` ran to completion |
| `ItemCollection.PlayerItemCollector.OnTriggerEnter2D` | Assets/Scripts/Inventory/PlayerItemCollector.cs:14-31 | follows `Reaction`: it offers the object to the inventory at most once and destroys it only after an accepted add. A notification is shown only on that path. On every other path the controller is unchanged |
| `ListInventory.Inventory.constructor` | Assets/Script/Inventory.cs:15 | `items` starts empty |
| `ListInventory.Inventory.Start` | Assets/Script/Inventory.cs:20-23 | fires `onInventoryChanged` once (when assigned) without altering `items` |
| `ListInventory.Inventory.AddItem` | Assets/Script/Inventory.cs:25-29 | always appends the item at the end, grows the list by exactly one and keeps earlier entries. The change event then fires once and sees the appended list |
| `SaveSystem.Saved` | Assets/Scripts/SaveController.cs:16-24 | the record holds the current position and items; position and items are unchanged |
| `SaveSystem.Loaded` | Assets/Scripts/SaveController.cs:25-37 | with a record, position and inventory become exactly the record's. Without one, they are unchanged. Afterwards a record exists |
| `SaveSystem.SaveDiscardsPreviousRecord` | Assets/Scripts/SaveController.cs:23 | a save overwrites the whole record; what was stored before does not matter |
| `SaveSystem.LoadWithoutRecordBootstraps` | Assets/Scripts/SaveController.cs:33-36 | a load with no record is a save, leaving a record of the current state |
| `SaveSystem.SaveThenLoadRestores` | Assets/Scripts/SaveController.cs:16-32 | after a save and later changes to position and items, a load restores what was saved |
| `SaveSystem.LoadIdempotent` | Assets/Scripts/SaveController.cs:25-37 | loading twice gives the same state as loading once |
| `SaveSystem.SaveController.SaveGame` | Assets/Scripts/SaveController.cs:16-24 | the controller's new state is `Saved` of the old one |
| `SaveSystem.SaveController.LoadGame` | Assets/Scripts/SaveController.cs:25-37 | the controller's new state is `Loaded` of the old one |

## Left out

- The popup fade coroutine (ItemPickupUIController.cs:45, 47-60): it is frame-timed and uses float alpha. It destroys popups without dequeuing them, so `activePopups` can hold popups that are already destroyed, and these still count against `maxPopups`. The model does not capture this.
- `popupDuration` and the float alpha and pixel positions of the drag handler: the canvas group becomes two booleans and positions become "centred" or a free point.
- DragTransfer.ItemDragHandler.OnBeginDrag: re-parenting to the canvas root keeps the item's world position. The model leaves the item's anchor as it was and does not model that geometry.
- Engine lookups done in `Start` (`GetComponent<CanvasGroup>`, `FindObjectOfType<InventoryController>`, `Path.Combine`) and `FindGameObjectWithTag("Player")`: these are assumed to succeed. The exceptions they would raise when missing are not modelled.
- PickupPopups.ItemPickupUIController.ShowItemPickup: a null `popupPrefab`, or a prefab without a text child, would throw. This is not modelled.
- `InventoryController` and `Slot` are not part of this model:
  - `AddItem`'s verdict is a parameter;
  - `GetInventoryItems`/`SetInventoryItems` are a field of the save controller;
  - a Slot is a cell holding an optional item.
- The JSON file and `JsonUtility`: the file is a store with at most one record, and the codec is the identity. An unreadable or corrupt file, and the precision of floats in JSON text, are out of reach.
- `Debug.Log`/`Debug.LogError`: `UseItem` returns its log line, and the error logged by a duplicate `Awake` is not recorded.
- Unity's destroyed-but-not-null objects (for example, an occupant destroyed elsewhere) are not modelled.
- The camera-switch and teleport scripts are out of scope. They only set priorities or a position on trigger.
- Crafting, recipe matching and world drop: the code modelled here has none of them.
