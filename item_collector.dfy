/**
  The player's pickup trigger (PlayerItemCollector.OnTriggerEnter2D): a
  collider tagged "Ingredient" that carries an Item is offered to the
  inventory; only when the inventory accepts it is the item picked up (a
  notification) and its world object destroyed.

  InventoryController is not part of this model: its AddItem is represented by
  the requests it receives (`addRequests`) and by the verdict it gives, passed
  in as `addVerdict`.
*/
module ItemCollection {
  import opened Wrappers
  import opened PickupPopups
  import opened WorldItems

  /** A GameObject in the world. */
  type ObjId = nat

  /** The collider that entered the trigger: its GameObject, its tag and its Item component (null if none). */
  datatype Collision = Collision(gameObject: ObjId, tag: string, item: Item?)

  /** Which steps one trigger reaches. */
  datatype Steps = Steps(callsAddItem: bool, callsPickUp: bool, destroysObject: bool)

  /**
    The guard chain of OnTriggerEnter2D. `added` is what AddItem returns;
    `pickUpCompletes` is false when PickUp throws, which skips the Destroy.
  */
  function Reaction(tag: string, hasItem: bool, added: bool, pickUpCompletes: bool): (r: Steps)
    ensures r.callsAddItem <==> tag == "Ingredient" && hasItem
    ensures r.callsPickUp <==> r.callsAddItem && added
    ensures r.destroysObject <==> r.callsPickUp && pickUpCompletes
  {
    if tag == "Ingredient" && hasItem then
      Steps(true, added, added && pickUpCompletes)
    else
      Steps(false, false, false)
  }

  class PlayerItemCollector {
    /** The objects handed to InventoryController.AddItem, in order. */
    var addRequests: seq<ObjId>
    /** The world objects this collector has destroyed. */
    var destroyedObjects: set<ObjId>

    constructor ()
      ensures addRequests == [] && destroyedObjects == {}
    {
      addRequests := [];
      destroyedObjects := {};
    }

    method OnTriggerEnter2D(collision: Collision, addVerdict: bool, statics: ControllerStatics) returns (steps: Steps)
      modifies this, statics.instance
      ensures steps == Reaction(collision.tag, collision.item != null, addVerdict,
                                collision.item != null && collision.item.image.Some?)
      ensures addRequests == old(addRequests) + (if steps.callsAddItem then [collision.gameObject] else [])
      ensures destroyedObjects == old(destroyedObjects) + (if steps.destroysObject then {collision.gameObject} else {})
      ensures statics.instance == old(statics.instance)
      ensures !steps.destroysObject && statics.instance != null ==> unchanged(statics.instance)
      ensures steps.destroysObject && statics.instance != null ==>
        var ui := statics.instance;
        && ui.popups == old(ui.popups) + [NewPopup(ui.prefabHasIcon, collision.item.Name, collision.item.image.value)]
        && ui.activePopups == Admit(old(ui.activePopups), |old(ui.popups)|, ui.maxPopups).queue
        && ui.destroyedPopups == old(ui.destroyedPopups) +
             (match Admit(old(ui.activePopups), |old(ui.popups)|, ui.maxPopups).evicted
              case Some(p) => {p}
              case None => {})
        && ui.maxPopups == old(ui.maxPopups) && ui.destroyed == old(ui.destroyed)
    {
      steps := Steps(false, false, false);
      if collision.tag == "Ingredient" {
        var item := collision.item;
        if item != null {
          addRequests := addRequests + [collision.gameObject];
          var itemAdded := addVerdict;
          if itemAdded {
            var threw := item.PickUp(statics);
            if threw {
              // the exception leaves OnTriggerEnter2D before Destroy
              steps := Steps(true, true, false);
              return;
            }
            destroyedObjects := destroyedObjects + {collision.gameObject};
            steps := Steps(true, true, true);
          } else {
            steps := Steps(true, false, false);
          }
        }
      }
    }
  }
}
