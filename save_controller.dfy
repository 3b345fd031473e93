/**
  Saving and loading the game (SaveController): one record holding the
  player's position and the inventory's items, written whole on save and
  restored on load, with a save in place of a load when no record exists.

  The JSON file is a store holding at most one record, and the codec is the
  identity. The player's transform position and InventoryController's
  Get/SetInventoryItems are fields of the controller.
*/
module SaveSystem {
  import opened Wrappers

  /** A position; the float components are carried unchanged by the identity codec. */
  datatype Vector3 = Vector3(x: int, y: int, z: int)

  /** One element of InventoryController's item list; its fields are not part of this model. */
  type InventorySaveData = nat

  /** The record written to saveData.json. */
  datatype SaveData = SaveData(playerPosition: Vector3, inventorySaveData: seq<InventorySaveData>)

  /** Everything SaveGame and LoadGame read or write. */
  datatype GameState = GameState(playerPosition: Vector3, inventory: seq<InventorySaveData>, saveFile: Option<SaveData>)

  /** SaveGame: overwrite the file with the current position and items. */
  function Saved(g: GameState): (r: GameState)
    ensures r.playerPosition == g.playerPosition && r.inventory == g.inventory
    ensures r.saveFile == Some(SaveData(g.playerPosition, g.inventory))
  {
    g.(saveFile := Some(SaveData(g.playerPosition, g.inventory)))
  }

  /** LoadGame: restore from the file if it exists, else save. */
  function Loaded(g: GameState): (r: GameState)
    ensures r.saveFile.Some?
    ensures g.saveFile.Some? ==> r.saveFile == g.saveFile
    ensures g.saveFile.Some? ==>
      r.playerPosition == g.saveFile.value.playerPosition && r.inventory == g.saveFile.value.inventorySaveData
    ensures g.saveFile.None? ==> r.playerPosition == g.playerPosition && r.inventory == g.inventory
  {
    match g.saveFile
    case Some(d) => g.(playerPosition := d.playerPosition, inventory := d.inventorySaveData)
    case None => Saved(g)
  }

  /** Whatever record was there before, saving leaves only the current state's record. */
  lemma SaveDiscardsPreviousRecord(g: GameState, previous: Option<SaveData>)
    ensures Saved(g.(saveFile := previous)) == Saved(g)
  {
  }

  /** A load with no record saves, leaving player and inventory as they were and a record of them. */
  lemma LoadWithoutRecordBootstraps(g: GameState)
    requires g.saveFile.None?
    ensures Loaded(g) == Saved(g)
    ensures Loaded(g).saveFile == Some(SaveData(g.playerPosition, g.inventory))
  {
  }

  /** Saving, changing position and items, then loading brings back what was saved. */
  lemma SaveThenLoadRestores(g: GameState, laterPosition: Vector3, laterInventory: seq<InventorySaveData>)
    ensures Loaded(Saved(g).(playerPosition := laterPosition, inventory := laterInventory)) == Saved(g)
  {
  }

  /** Loading twice is the same as loading once. */
  lemma LoadIdempotent(g: GameState)
    ensures Loaded(Loaded(g)) == Loaded(g)
  {
  }

  class SaveController {
    /** The contents of saveData.json, if the file exists. */
    var saveFile: Option<SaveData>
    /** The position of the object tagged "Player". */
    var playerPosition: Vector3
    /** What InventoryController.GetInventoryItems returns and SetInventoryItems replaces. */
    var inventoryItems: seq<InventorySaveData>

    constructor (file: Option<SaveData>, position: Vector3, items: seq<InventorySaveData>)
      ensures saveFile == file && playerPosition == position && inventoryItems == items
    {
      saveFile := file;
      playerPosition := position;
      inventoryItems := items;
    }

    function State(): (r: GameState)
      reads this
    {
      GameState(playerPosition, inventoryItems, saveFile)
    }

    method SaveGame()
      modifies this
      ensures State() == Saved(old(State()))
    {
      var saveData := SaveData(playerPosition, inventoryItems);
      saveFile := Some(saveData);
    }

    method LoadGame()
      modifies this
      ensures State() == Loaded(old(State()))
    {
      if saveFile.Some? {
        var saveData := saveFile.value;
        playerPosition := saveData.playerPosition;
        inventoryItems := saveData.inventorySaveData;
      } else {
        SaveGame();
      }
    }
  }
}
