/** Lookups over the list of item definitions. */
module ItemDefinitionCollection {
  import opened Wrappers
  import opened Seqs
  import opened GameEnums
  import opened Definitions

  /** FirstOrDefault by itemID. */
  function GetItemDefinition(defs: seq<ItemDefinition>, itemID: ItemID): (r: Nullable<ItemDefinition>)
    ensures r.Null? <==> forall j :: 0 <= j < |defs| ==> defs[j].itemID != itemID
    ensures r.Some? ==> r.value.itemID == itemID
    ensures r.Some? ==> exists i :: 0 <= i < |defs| && defs[i] == r.value
                                    && forall j :: 0 <= j < i ==> defs[j].itemID != itemID
  {
    FirstWhere(defs, (d: ItemDefinition) => d.itemID == itemID)
  }

  /** Where by itemType, in list order. */
  function GetItemsByType(defs: seq<ItemDefinition>, itemType: ItemType): (r: seq<ItemDefinition>)
    ensures forall d :: d in r <==> d in defs && d.itemType == itemType
    ensures forall j :: 0 <= j < |r| ==> r[j].itemType == itemType
  {
    Filter(defs, (d: ItemDefinition) => d.itemType == itemType)
  }

  function GetSeeds(defs: seq<ItemDefinition>): (r: seq<ItemDefinition>)
    ensures forall d :: d in r <==> d in defs && d.itemType == ItemType.Seed
  {
    GetItemsByType(defs, ItemType.Seed)
  }

  function GetProducts(defs: seq<ItemDefinition>): (r: seq<ItemDefinition>)
    ensures forall d :: d in r <==> d in defs && d.itemType == Product
  {
    GetItemsByType(defs, Product)
  }

  /** The first Currency item, or null. */
  function GetCurrency(defs: seq<ItemDefinition>): (r: Nullable<ItemDefinition>)
    ensures r.Null? <==> forall j :: 0 <= j < |defs| ==> defs[j].itemType != Currency
    ensures r.Some? ==> r.value.itemType == Currency
    ensures r.Some? ==> exists i :: 0 <= i < |defs| && defs[i] == r.value
                                    && forall j :: 0 <= j < i ==> defs[j].itemType != Currency
  {
    FirstWhere(defs, (d: ItemDefinition) => d.itemType == Currency)
  }

  /** The type filter keeps list order: it distributes over concatenation. */
  lemma ItemsByTypeKeepsOrder(a: seq<ItemDefinition>, b: seq<ItemDefinition>, itemType: ItemType)
    ensures GetItemsByType(a + b, itemType) == GetItemsByType(a, itemType) + GetItemsByType(b, itemType)
  {
    FilterAppend(a, b, (d: ItemDefinition) => d.itemType == itemType);
  }
}
