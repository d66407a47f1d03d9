/** The enumerations shared by all records of the game. */
module GameEnums {
  datatype EntityID = None | TOMATO_PLANT | BLUEBERRY_PLANT | STRAWBERRY_PLANT | MILK_COW

  datatype EntityType = Plant | Animal

  datatype ItemID = None | Gold | TomatoSeed | BlueberrySeed | StrawberrySeed
                  | Tomato | Blueberry | Strawberry | Milk | Cow

  datatype ItemType = Currency | Seed | Product | Animal

  datatype StoreID = None | TomatoSeedSale | BlueberrySeedSale | StrawberrySeedPackSale
                   | DairyCowSale | HireWorker | UpgradeEquipment | BuyLandPlot

  datatype PurchaseType = Seed | Animal | Land | EquipmentUpgrade | Worker

  /** Every item id, in declaration order. */
  const AllItemIDs: seq<ItemID> :=
    [ItemID.None, Gold, TomatoSeed, BlueberrySeed, StrawberrySeed,
     Tomato, Blueberry, Strawberry, Milk, Cow]

  lemma AllItemIDsComplete()
    ensures forall id: ItemID :: id in AllItemIDs
  {
    forall id: ItemID ensures id in AllItemIDs {
      match id
      case None => assert AllItemIDs[0] == id;
      case _ =>
    }
  }

  lemma AllItemIDsDistinct()
    ensures forall i, j :: 0 <= i < j < |AllItemIDs| ==> AllItemIDs[i] != AllItemIDs[j]
  {
  }
}
