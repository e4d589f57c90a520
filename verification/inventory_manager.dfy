/**
  Item counts of a character's inventory (InventoryManager).

  The inventory maps each collected item to how many of it are held.  An item
  that was never collected reads as 0, and an item is "contained" only while
  its count is positive.  Adding caps the count at the item's maximum and
  removing floors it at 0; every operation touches only the entry of the item
  it is given.
*/
module Inventory {

  /** An item kind; the dictionary is keyed by its identity. */
  class InventoryItem {
    const maxNumberOfItemsToHold: int

    constructor (maxNumberOfItemsToHold: int)
      ensures this.maxNumberOfItemsToHold == maxNumberOfItemsToHold
    {
      this.maxNumberOfItemsToHold := maxNumberOfItemsToHold;
    }
  }

  function Min(a: int, b: int): int { if a <= b then a else b }

  function Max(a: int, b: int): int { if a >= b then a else b }

  class InventoryManager {
    var allCollectedItems: map<InventoryItem, int>

    constructor ()
      ensures allCollectedItems == map[]
    {
      allCollectedItems := map[];
    }

    /** Every stored count lies between 0 and its item's maximum. */
    ghost predicate CountsInRange()
      reads this
    {
      forall item :: item in allCollectedItems ==>
        0 <= allCollectedItems[item] <= item.maxNumberOfItemsToHold
    }

    /** The number held of `item`; an item never collected reads as 0. */
    function GetItemsRemaining(item: InventoryItem): (count: int)
      reads this
      ensures item in allCollectedItems ==> count == allCollectedItems[item]
      ensures item !in allCollectedItems ==> count == 0
      ensures CountsInRange() ==> 0 <= count
    {
      if item in allCollectedItems then allCollectedItems[item] else 0
    }

    /** Whether at least one of `item` is held; a zero or negative entry does not count. */
    predicate ContainsItem(item: InventoryItem)
      reads this
      ensures ContainsItem(item) ==> item in allCollectedItems && allCollectedItems[item] > 0
      ensures item in allCollectedItems && allCollectedItems[item] > 0 ==> ContainsItem(item)
    {
      GetItemsRemaining(item) > 0
    }

    /**
      Adds `numberOfItemsToAdd` of `item`, capped at the item's maximum.  An
      item not yet present gets an entry first.
    */
    method AddItemToInventory(inventoryItemToAdd: InventoryItem, numberOfItemsToAdd: int)
      modifies this
      ensures allCollectedItems.Keys == old(allCollectedItems.Keys) + {inventoryItemToAdd}
      ensures GetItemsRemaining(inventoryItemToAdd)
              == Min(old(GetItemsRemaining(inventoryItemToAdd)) + numberOfItemsToAdd,
                     inventoryItemToAdd.maxNumberOfItemsToHold)
      ensures GetItemsRemaining(inventoryItemToAdd) <= inventoryItemToAdd.maxNumberOfItemsToHold
      ensures allCollectedItems - {inventoryItemToAdd} == old(allCollectedItems) - {inventoryItemToAdd}
      ensures old(CountsInRange()) && 0 <= numberOfItemsToAdd && 0 <= inventoryItemToAdd.maxNumberOfItemsToHold
              ==> CountsInRange()
    {
      if inventoryItemToAdd !in allCollectedItems {
        allCollectedItems := allCollectedItems[inventoryItemToAdd := 0];
      }
      allCollectedItems := allCollectedItems[inventoryItemToAdd :=
                             allCollectedItems[inventoryItemToAdd] + numberOfItemsToAdd];
      allCollectedItems := allCollectedItems[inventoryItemToAdd :=
                             Min(allCollectedItems[inventoryItemToAdd], inventoryItemToAdd.maxNumberOfItemsToHold)];
    }

    /**
      Discards up to `numberOfItemsToRemove` of a contained item, never going
      below 0; an item that is not contained is left alone.
    */
    method RemoveItemFromInventory(inventoryItemToRemove: InventoryItem, numberOfItemsToRemove: int)
      modifies this
      ensures old(ContainsItem(inventoryItemToRemove)) ==>
                allCollectedItems == old(allCollectedItems)[inventoryItemToRemove :=
                  Max(0, old(GetItemsRemaining(inventoryItemToRemove)) - numberOfItemsToRemove)]
      ensures old(ContainsItem(inventoryItemToRemove)) ==> GetItemsRemaining(inventoryItemToRemove) >= 0
      ensures !old(ContainsItem(inventoryItemToRemove)) ==> allCollectedItems == old(allCollectedItems)
      ensures allCollectedItems - {inventoryItemToRemove} == old(allCollectedItems) - {inventoryItemToRemove}
      ensures old(CountsInRange()) && 0 <= numberOfItemsToRemove ==> CountsInRange()
    {
      if ContainsItem(inventoryItemToRemove) {
        allCollectedItems := allCollectedItems[inventoryItemToRemove :=
                               allCollectedItems[inventoryItemToRemove] - numberOfItemsToRemove];
        allCollectedItems := allCollectedItems[inventoryItemToRemove :=
                               Max(0, allCollectedItems[inventoryItemToRemove])];
      }
    }

    /** Uses one of `itemToUse`: the same as discarding one. */
    method UseItem(itemToUse: InventoryItem)
      modifies this
      ensures old(ContainsItem(itemToUse)) ==>
                allCollectedItems == old(allCollectedItems)[itemToUse := old(GetItemsRemaining(itemToUse)) - 1]
      ensures !old(ContainsItem(itemToUse)) ==> allCollectedItems == old(allCollectedItems)
      ensures old(CountsInRange()) ==> CountsInRange()
    {
      RemoveItemFromInventory(itemToUse, 1);
    }
  }
}
