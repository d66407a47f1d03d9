/**
 * The read-only definition data the data manager exposes: the three
 * collections and the (optional) settings asset, with its quick lookups.
 */
module Catalog {
  import opened Wrappers
  import opened GameEnums
  import opened Definitions
  import opened GameSettings
  import EntityDefinitionCollection
  import ItemDefinitionCollection
  import StoreItemCollection

  datatype Catalog = Catalog(
    entityDefinitions: seq<EntityDefinition>,
    itemDefinitions: seq<ItemDefinition>,
    storeItems: seq<StoreItemDefinition>,
    settings: Nullable<GameSettings>)

  function GetEntity(cat: Catalog, entityID: EntityID): Nullable<EntityDefinition>
  {
    EntityDefinitionCollection.GetEntityDefinition(cat.entityDefinitions, entityID)
  }

  function GetItem(cat: Catalog, itemID: ItemID): Nullable<ItemDefinition>
  {
    ItemDefinitionCollection.GetItemDefinition(cat.itemDefinitions, itemID)
  }

  function GetStoreItem(cat: Catalog, storeID: StoreID): Nullable<StoreItemDefinition>
  {
    StoreItemCollection.GetStoreItem(cat.storeItems, storeID)
  }
}
