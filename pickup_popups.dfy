/**
  The pickup notification controller (ItemPickupUIController): a register-once
  singleton and a bounded first-in first-out queue of popup objects.

  Instantiating the popup prefab appends a record to `popups`; a popup is named
  by its index there. `Destroy` adds the index to `destroyedPopups`. The static
  `Instance` property lives in a `ControllerStatics` object that every caller
  shares.
*/
module PickupPopups {
  import opened Wrappers

  /** A sprite asset reference (null included). */
  type Sprite = nat
  /** A popup GameObject: its index in `popups`. */
  type PopupId = nat

  /** A popup as shown: its text and, when the prefab has an `ItemIcon` image, that image's sprite. */
  datatype Popup = Popup(text: string, icon: Option<Sprite>)

  /** The queue after one admission, and the popup it evicted, if any. */
  datatype Admission = Admission(queue: seq<PopupId>, evicted: Option<PopupId>)

  /** Enqueue `p`, then dequeue the oldest popup if the queue holds more than `maxPopups`. */
  function Admit(queue: seq<PopupId>, p: PopupId, maxPopups: int): (r: Admission)
    ensures r.evicted.None? ==> r.queue == queue + [p]
    ensures r.evicted.Some? ==> [r.evicted.value] + r.queue == queue + [p]
    ensures r.evicted.Some? <==> |queue| + 1 > maxPopups
    ensures r.evicted.Some? && queue != [] ==> r.evicted.value == queue[0]
    ensures |queue| <= maxPopups ==> |r.queue| <= maxPopups
    ensures r.queue != [] ==> r.queue[|r.queue| - 1] == p
    ensures r.queue == [] <==> queue == [] && maxPopups < 1
  {
    var q := queue + [p];
    if |q| > maxPopups then Admission(q[1..], Some(q[0])) else Admission(q, None)
  }

  /** The popup record a prefab with or without an `ItemIcon` image yields for one pickup. */
  function NewPopup(prefabHasIcon: bool, itemName: string, itemIcon: Sprite): (r: Popup)
    ensures r.text == itemName
    ensures r.icon.Some? <==> prefabHasIcon
    ensures r.icon.Some? ==> r.icon.value == itemIcon
  {
    Popup(itemName, if prefabHasIcon then Some(itemIcon) else None)
  }

  /** Admissions from a queue at most `maxPopups` long keep it at most that long. */
  lemma {:induction false} AdmitAllKeepsBound(queue: seq<PopupId>, ps: seq<PopupId>, maxPopups: int)
    requires 0 <= maxPopups && |queue| <= maxPopups
    ensures |AdmitAll(queue, ps, maxPopups)| <= maxPopups
    decreases |ps|
  {
    if ps != [] {
      AdmitAllKeepsBound(Admit(queue, ps[0], maxPopups).queue, ps[1..], maxPopups);
    }
  }

  /** The queue after a series of ShowItemPickup calls for the popups `ps`. */
  function AdmitAll(queue: seq<PopupId>, ps: seq<PopupId>, maxPopups: int): (r: seq<PopupId>)
    decreases |ps|
  {
    if ps == [] then queue else AdmitAll(Admit(queue, ps[0], maxPopups).queue, ps[1..], maxPopups)
  }

  /** The shared `ItemPickupUIController.Instance`. */
  class ControllerStatics {
    var instance: ItemPickupUIController?

    constructor ()
      ensures instance == null
    {
      instance := null;
    }
  }

  class ItemPickupUIController {
    /** `popupPrefab` has an `ItemIcon` child carrying an Image. */
    const prefabHasIcon: bool
    var maxPopups: int
    /** Every popup this controller has instantiated, in order. */
    var popups: seq<Popup>
    var activePopups: seq<PopupId>
    var destroyedPopups: set<PopupId>
    /** This controller's own GameObject has been destroyed. */
    var destroyed: bool

    constructor (prefabHasIcon: bool)
      ensures this.prefabHasIcon == prefabHasIcon
      ensures maxPopups == 5
      ensures popups == [] && activePopups == [] && destroyedPopups == {}
      ensures !destroyed
    {
      this.prefabHasIcon := prefabHasIcon;
      maxPopups := 5;
      popups := [];
      activePopups := [];
      destroyedPopups := {};
      destroyed := false;
    }

    /** The first controller to wake becomes the instance; a later one destroys itself. */
    method Awake(statics: ControllerStatics)
      modifies statics, this
      ensures old(statics.instance) == null ==> statics.instance == this && destroyed == old(destroyed)
      ensures old(statics.instance) != null ==> statics.instance == old(statics.instance) && destroyed
      ensures popups == old(popups) && activePopups == old(activePopups)
      ensures destroyedPopups == old(destroyedPopups) && maxPopups == old(maxPopups)
    {
      if statics.instance == null {
        statics.instance := this;
      } else {
        // the source logs "Multiple ItemPickupUIManager" here
        destroyed := true;
      }
    }

    /** Instantiate a popup labelled `itemName`, queue it, and evict the oldest beyond `maxPopups`. */
    method ShowItemPickup(itemName: string, itemIcon: Sprite)
      modifies this
      ensures popups == old(popups) + [NewPopup(prefabHasIcon, itemName, itemIcon)]
      ensures activePopups == Admit(old(activePopups), |old(popups)|, maxPopups).queue
      ensures destroyedPopups == old(destroyedPopups) +
        (match Admit(old(activePopups), |old(popups)|, maxPopups).evicted
         case Some(p) => {p}
         case None => {})
      ensures maxPopups == old(maxPopups) && destroyed == old(destroyed)
    {
      var newPopup := |popups|;
      popups := popups + [NewPopup(prefabHasIcon, itemName, itemIcon)];
      activePopups := activePopups + [newPopup];
      if |activePopups| > maxPopups {
        var oldest := activePopups[0];
        activePopups := activePopups[1..];
        destroyedPopups := destroyedPopups + {oldest};
      }
    }
  }
}
