/**
 * The static catalog records: what an entity kind produces and how fast,
 * what an item is worth and what it grows into, and what the shop sells.
 * Descriptions and icons are presentation only and are not kept.
 */
module Definitions {
  import opened GameEnums

  /** Times are in minutes; an instance keeps its timers in seconds. */
  datatype EntityDefinition = EntityDefinition(
    entityID: EntityID,
    entityName: string,
    entityType: EntityType,
    baseProductionTime: real,
    baseYieldAmount: int,
    totalYieldsLimit: int,
    productProducedItemID: ItemID,
    quantityPerPlot: int,
    seedItemID: ItemID,
    purchasePrice: int,
    decayTimeAfterLastYield: real)

  datatype ItemDefinition = ItemDefinition(
    itemID: ItemID,
    itemName: string,
    itemType: ItemType,
    baseSalePrice: int,
    basePurchasePrice: int,
    purchasePackSize: int,
    growsIntoEntityID: EntityID,
    producedByEntityID: EntityID)

  datatype StoreItemDefinition = StoreItemDefinition(
    storeID: StoreID,
    displayName: string,
    purchaseType: PurchaseType,
    amount: int,
    price: int,
    referencedItemID: ItemID,
    referencedEntityID: EntityID)
}
