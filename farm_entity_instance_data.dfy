/**
 * The farm entity as the object the game keeps: UpdateTimers and Harvest
 * rewrite its fields in place. Each method is specified by the value model
 * in EntityLifecycle.
 */
module FarmEntityInstanceData {
  import opened Wrappers
  import opened GameEnums
  import opened Definitions
  import EntityLifecycle

  class FarmEntityInstanceData {
    var instanceID: string
    var entityID: EntityID
    var associatedPlotID: int
    var positionIndex: int
    var currentState: EntityLifecycle.EntityState
    var currentYieldsProduced: int
    var accumulatedProducts: int
    var timeUntilNextYield: real
    var timeUntilDecay: real
    var lastUpdateTimestamp: int

    /** The fields as a value. */
    function Value(): EntityLifecycle.Entity
      reads this
    {
      EntityLifecycle.Entity(instanceID, entityID, associatedPlotID, positionIndex, currentState,
                             currentYieldsProduced, accumulatedProducts, timeUntilNextYield,
                             timeUntilDecay, lastUpdateTimestamp)
    }

    /** The parameterless (JSON) constructor. */
    constructor Default(instanceID: string, now: int)
      ensures Value() == EntityLifecycle.DefaultEntity(instanceID, now)
    {
      this.instanceID := instanceID;
      entityID := EntityID.None;
      associatedPlotID := -1;
      positionIndex := 0;
      currentState := EntityLifecycle.Growing;
      currentYieldsProduced := 0;
      accumulatedProducts := 0;
      timeUntilNextYield := 0.0;
      timeUntilDecay := 0.0;
      lastUpdateTimestamp := now;
    }

    /** The constructor taking a kind, a plot and a position. */
    constructor (instanceID: string, entityType: EntityID, plotID: int, position: int,
                 def: Nullable<EntityDefinition>, now: int)
      ensures Value() == EntityLifecycle.NewEntity(instanceID, entityType, plotID, position, def, now)
    {
      this.instanceID := instanceID;
      entityID := entityType;
      associatedPlotID := plotID;
      positionIndex := position;
      currentState := EntityLifecycle.Growing;
      currentYieldsProduced := 0;
      accumulatedProducts := 0;
      lastUpdateTimestamp := now;
      new;
      InitializeFromDefinition(def);
    }

    method InitializeFromDefinition(def: Nullable<EntityDefinition>)
      modifies this
      ensures (timeUntilNextYield, timeUntilDecay) == EntityLifecycle.InitialTimers(def)
      ensures Value() == old(Value()).(timeUntilNextYield := timeUntilNextYield, timeUntilDecay := timeUntilDecay)
    {
      if def.Some? {
        timeUntilNextYield := def.value.baseProductionTime * 60.0;
        timeUntilDecay := def.value.decayTimeAfterLastYield * 60.0;
      } else {
        timeUntilNextYield := 600.0;
        timeUntilDecay := 3600.0;
      }
    }

    predicate CanHarvest()
      reads this
    {
      EntityLifecycle.CanHarvest(Value())
    }

    predicate CanProduceMore(def: Nullable<EntityDefinition>)
      reads this
    {
      EntityLifecycle.CanProduceMore(Value(), def)
    }

    predicate IsDead()
      reads this
    {
      EntityLifecycle.IsDead(Value())
    }

    function GetTimeRemaining(): real
      reads this
    {
      EntityLifecycle.GetTimeRemaining(Value())
    }

    method UpdateTimers(def: Nullable<EntityDefinition>, deltaTime: real, now: int)
      modifies this
      ensures Value() == EntityLifecycle.UpdateTimers(old(Value()), def, deltaTime, now)
    {
      if def.Null? {
        return;
      }
      var entityDef := def.value;
      match currentState {
        case Growing =>
          timeUntilNextYield := timeUntilNextYield - deltaTime;
          if timeUntilNextYield <= 0.0 {
            currentYieldsProduced := currentYieldsProduced + 1;
            accumulatedProducts := accumulatedProducts + entityDef.baseYieldAmount;
            currentState := EntityLifecycle.ReadyToHarvest;
            timeUntilDecay := entityDef.decayTimeAfterLastYield * 60.0;
            timeUntilNextYield := entityDef.baseProductionTime * 60.0;
          }
        case ReadyToHarvest =>
          timeUntilNextYield := timeUntilNextYield - deltaTime;
          timeUntilDecay := timeUntilDecay - deltaTime;
          if timeUntilNextYield <= 0.0 && CanProduceMore(def) {
            currentYieldsProduced := currentYieldsProduced + 1;
            accumulatedProducts := accumulatedProducts + entityDef.baseYieldAmount;
            timeUntilNextYield := entityDef.baseProductionTime * 60.0;
          }
          if timeUntilDecay <= 0.0 || !CanProduceMore(def) {
            if accumulatedProducts > 0 {
              currentState := EntityLifecycle.Decaying;
              timeUntilDecay := entityDef.decayTimeAfterLastYield * 60.0;
            } else {
              currentState := EntityLifecycle.Dead;
            }
          }
        case Decaying =>
          timeUntilDecay := timeUntilDecay - deltaTime;
          if timeUntilDecay <= 0.0 {
            currentState := EntityLifecycle.Dead;
            accumulatedProducts := 0;
            timeUntilDecay := 0.0;
          }
        case Dead =>
      }
      lastUpdateTimestamp := now;
    }

    method Harvest(def: Nullable<EntityDefinition>, now: int) returns (result: EntityLifecycle.HarvestResult)
      modifies this
      ensures (result, Value()) == EntityLifecycle.Harvest(old(Value()), def, now)
    {
      if !CanHarvest() {
        return EntityLifecycle.FailedHarvest;
      }
      if def.Null? {
        return EntityLifecycle.FailedHarvest;
      }
      var entityDef := def.value;
      var baseAmount := accumulatedProducts;
      result := EntityLifecycle.HarvestResult(true, entityDef.productProducedItemID, baseAmount);
      accumulatedProducts := 0;
      if currentState == EntityLifecycle.Decaying && !CanProduceMore(def) {
        currentState := EntityLifecycle.Dead;
        timeUntilDecay := 0.0;
        timeUntilNextYield := 0.0;
      } else {
        timeUntilDecay := entityDef.decayTimeAfterLastYield * 60.0;
        if CanProduceMore(def) {
          currentState := EntityLifecycle.ReadyToHarvest;
        } else {
          currentState := EntityLifecycle.Decaying;
        }
      }
      lastUpdateTimestamp := now;
    }

    method UpdateFromOfflineTime(def: Nullable<EntityDefinition>, currentTimestamp: int)
      modifies this
      ensures Value() == EntityLifecycle.UpdateFromOfflineTime(old(Value()), def, currentTimestamp)
    {
      if lastUpdateTimestamp <= 0 {
        return;
      }
      var offlineSeconds := currentTimestamp - lastUpdateTimestamp;
      if offlineSeconds > 0 {
        UpdateTimers(def, offlineSeconds as real, currentTimestamp);
      }
    }
  }
}
