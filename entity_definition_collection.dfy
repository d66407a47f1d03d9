/** Lookups over the list of entity definitions. */
module EntityDefinitionCollection {
  import opened Wrappers
  import opened Seqs
  import opened GameEnums
  import opened Definitions

  /** FirstOrDefault by entityID. */
  function GetEntityDefinition(defs: seq<EntityDefinition>, entityID: EntityID): (r: Nullable<EntityDefinition>)
    ensures r.Null? <==> forall j :: 0 <= j < |defs| ==> defs[j].entityID != entityID
    ensures r.Some? ==> r.value.entityID == entityID
    ensures r.Some? ==> exists i :: 0 <= i < |defs| && defs[i] == r.value
                                    && forall j :: 0 <= j < i ==> defs[j].entityID != entityID
  {
    FirstWhere(defs, (e: EntityDefinition) => e.entityID == entityID)
  }

  /** Where by entityType, in list order. */
  function GetEntitiesByType(defs: seq<EntityDefinition>, entityType: EntityType): (r: seq<EntityDefinition>)
    ensures forall d :: d in r <==> d in defs && d.entityType == entityType
    ensures forall j :: 0 <= j < |r| ==> r[j].entityType == entityType
  {
    Filter(defs, (e: EntityDefinition) => e.entityType == entityType)
  }

  function GetPlants(defs: seq<EntityDefinition>): (r: seq<EntityDefinition>)
    ensures forall d :: d in r <==> d in defs && d.entityType == Plant
  {
    GetEntitiesByType(defs, Plant)
  }

  function GetAnimals(defs: seq<EntityDefinition>): (r: seq<EntityDefinition>)
    ensures forall d :: d in r <==> d in defs && d.entityType == EntityType.Animal
  {
    GetEntitiesByType(defs, EntityType.Animal)
  }

  /** The type filter keeps list order: it distributes over concatenation. */
  lemma EntitiesByTypeKeepsOrder(a: seq<EntityDefinition>, b: seq<EntityDefinition>, entityType: EntityType)
    ensures GetEntitiesByType(a + b, entityType) == GetEntitiesByType(a, entityType) + GetEntitiesByType(b, entityType)
  {
    FilterAppend(a, b, (e: EntityDefinition) => e.entityType == entityType);
  }

  /** Every definition is a plant or an animal and not both, so the two lists partition the collection. */
  lemma {:induction false} PlantsAndAnimalsPartition(defs: seq<EntityDefinition>)
    ensures |GetPlants(defs)| + |GetAnimals(defs)| == |defs|
    ensures multiset(GetPlants(defs)) + multiset(GetAnimals(defs)) == multiset(defs)
  {
    if |defs| > 0 {
      PlantsAndAnimalsPartition(defs[1..]);
      assert defs == [defs[0]] + defs[1..];
    }
  }
}
