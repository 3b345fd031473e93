/**
  A collectable object in the world (the MonoBehaviour `Item`): plain data,
  a use action that only logs, and a pickup that hands a notification to the
  popup controller when one is registered.
*/
module WorldItems {
  import opened Wrappers
  import opened PickupPopups

  /** A prefab asset reference. */
  type PrefabRef = nat

  class Item {
    var ID: int
    var Name: string
    var worldItemPrefab: PrefabRef
    /** The sprite of the object's Image component; None when it has no Image. */
    var image: Option<Sprite>

    constructor (id: int, name: string, prefab: PrefabRef, image: Option<Sprite>)
      ensures ID == id && Name == name && worldItemPrefab == prefab && this.image == image
    {
      ID := id;
      Name := name;
      worldItemPrefab := prefab;
      this.image := image;
    }

    /** The line UseItem writes to the log; nothing else happens. */
    method UseItem() returns (logLine: string)
      ensures |logLine| == 10 + |Name|
      ensures logLine[..10] == "Using item" && logLine[10..] == Name
    {
      logLine := "Using item" + Name;
    }

    /**
      Read the Image's sprite, then, if a controller is registered, show one
      notification carrying this item's Name and that sprite. `threw` is true
      when the object has no Image: `GetComponent<Image>().sprite` raises a
      NullReferenceException before anything else happens.
    */
    method PickUp(statics: ControllerStatics) returns (threw: bool)
      modifies statics.instance
      ensures threw <==> image.None?
      ensures statics.instance == old(statics.instance)
      ensures ID == old(ID) && Name == old(Name) && worldItemPrefab == old(worldItemPrefab)
      ensures !threw && statics.instance != null ==>
        var ui := statics.instance;
        && ui.popups == old(ui.popups) + [NewPopup(ui.prefabHasIcon, Name, image.value)]
        && ui.activePopups == Admit(old(ui.activePopups), |old(ui.popups)|, ui.maxPopups).queue
        && ui.destroyedPopups == old(ui.destroyedPopups) +
             (match Admit(old(ui.activePopups), |old(ui.popups)|, ui.maxPopups).evicted
              case Some(p) => {p}
              case None => {})
        && ui.maxPopups == old(ui.maxPopups) && ui.destroyed == old(ui.destroyed)
      ensures threw && statics.instance != null ==> unchanged(statics.instance)
    {
      if image.None? {
        threw := true;
        return;
      }
      threw := false;
      var itemIcon := image.value;
      if statics.instance != null {
        statics.instance.ShowItemPickup(Name, itemIcon);
      }
    }
  }
}
