/** Lookups over the list of shop entries. */
module StoreItemCollection {
  import opened Wrappers
  import opened Seqs
  import opened GameEnums
  import opened Definitions

  /** FirstOrDefault by storeID. */
  function GetStoreItem(items: seq<StoreItemDefinition>, storeID: StoreID): (r: Nullable<StoreItemDefinition>)
    ensures r.Null? <==> forall j :: 0 <= j < |items| ==> items[j].storeID != storeID
    ensures r.Some? ==> r.value.storeID == storeID
    ensures r.Some? ==> exists i :: 0 <= i < |items| && items[i] == r.value
                                    && forall j :: 0 <= j < i ==> items[j].storeID != storeID
  {
    FirstWhere(items, (s: StoreItemDefinition) => s.storeID == storeID)
  }

  /** Where by purchaseType, in list order. */
  function GetItemsByPurchaseType(items: seq<StoreItemDefinition>, purchaseType: PurchaseType): (r: seq<StoreItemDefinition>)
    ensures forall s :: s in r <==> s in items && s.purchaseType == purchaseType
    ensures forall j :: 0 <= j < |r| ==> r[j].purchaseType == purchaseType
  {
    Filter(items, (s: StoreItemDefinition) => s.purchaseType == purchaseType)
  }

  function GetSeedItems(items: seq<StoreItemDefinition>): (r: seq<StoreItemDefinition>)
    ensures forall s :: s in r <==> s in items && s.purchaseType == PurchaseType.Seed
  {
    GetItemsByPurchaseType(items, PurchaseType.Seed)
  }

  function GetAnimalItems(items: seq<StoreItemDefinition>): (r: seq<StoreItemDefinition>)
    ensures forall s :: s in r <==> s in items && s.purchaseType == PurchaseType.Animal
  {
    GetItemsByPurchaseType(items, PurchaseType.Animal)
  }

  predicate IsUpgrade(s: StoreItemDefinition)
  {
    s.purchaseType == EquipmentUpgrade || s.purchaseType == PurchaseType.Worker || s.purchaseType == Land
  }

  /** The equipment, worker and land entries, in list order. */
  function GetUpgradeItems(items: seq<StoreItemDefinition>): (r: seq<StoreItemDefinition>)
    ensures forall s :: s in r <==> s in items && s.purchaseType in {EquipmentUpgrade, PurchaseType.Worker, Land}
  {
    Filter(items, IsUpgrade)
  }

  lemma ItemsByPurchaseTypeKeepsOrder(a: seq<StoreItemDefinition>, b: seq<StoreItemDefinition>, purchaseType: PurchaseType)
    ensures GetItemsByPurchaseType(a + b, purchaseType)
         == GetItemsByPurchaseType(a, purchaseType) + GetItemsByPurchaseType(b, purchaseType)
  {
    FilterAppend(a, b, (s: StoreItemDefinition) => s.purchaseType == purchaseType);
  }

  /** The seed, animal and upgrade lists together hold every entry exactly once. */
  lemma ShopListsCoverEveryEntryOnce(items: seq<StoreItemDefinition>)
    ensures multiset(GetSeedItems(items)) + multiset(GetAnimalItems(items)) + multiset(GetUpgradeItems(items))
         == multiset(items)
    ensures |GetSeedItems(items)| + |GetAnimalItems(items)| + |GetUpgradeItems(items)| == |items|
  {
    var seeds, animals, upgrades := GetSeedItems(items), GetAnimalItems(items), GetUpgradeItems(items);
    FilterMultiset(items, (s: StoreItemDefinition) => s.purchaseType == PurchaseType.Seed);
    FilterMultiset(items, (s: StoreItemDefinition) => s.purchaseType == PurchaseType.Animal);
    FilterMultiset(items, IsUpgrade);
    var all := multiset(seeds) + multiset(animals) + multiset(upgrades);
    forall x: StoreItemDefinition
      ensures all[x] == multiset(items)[x]
    {
      match x.purchaseType
      case Seed =>
      case Animal =>
      case Land =>
      case EquipmentUpgrade =>
      case Worker =>
    }
    assert all == multiset(items);
    assert |all| == |seeds| + |animals| + |upgrades|;
  }
}
