/**
 * A farm entity (a plant or an animal standing on a plot) as a value: its
 * timers, its yield counter and the products waiting to be harvested, and
 * the timer-driven life cycle Growing -> ReadyToHarvest -> Decaying -> Dead.
 *
 * The definition the C# code fetches from the catalog by entityID is passed
 * in as `def` (Null when the catalog has none); `now` is the wall-clock
 * Unix time that each update stamps.
 */
module EntityLifecycle {
  import opened Wrappers
  import opened GameEnums
  import opened Definitions

  datatype EntityState = Growing | ReadyToHarvest | Decaying | Dead

  datatype Entity = Entity(
    instanceID: string,
    entityID: EntityID,
    associatedPlotID: int,
    positionIndex: int,
    currentState: EntityState,
    currentYieldsProduced: int,
    accumulatedProducts: int,
    timeUntilNextYield: real,
    timeUntilDecay: real,
    lastUpdateTimestamp: int)

  datatype HarvestResult = HarvestResult(success: bool, itemProduced: ItemID, amountProduced: int)

  /** The default value of the result struct, returned on every failure. */
  const FailedHarvest := HarvestResult(false, ItemID.None, 0)

  /** Seconds until the next yield and until decay for a fresh entity. */
  function InitialTimers(def: Nullable<EntityDefinition>): (timers: (real, real))
    ensures def.Some? ==> timers == (def.value.baseProductionTime * 60.0, def.value.decayTimeAfterLastYield * 60.0)
    ensures def.Null? ==> timers == (600.0, 3600.0)
  {
    match def
    case Null => (600.0, 3600.0)
    case Some(d) => (d.baseProductionTime * 60.0, d.decayTimeAfterLastYield * 60.0)
  }

  /** The JSON constructor: no kind, no plot, zero timers. */
  function DefaultEntity(instanceID: string, now: int): (e: Entity)
    ensures e.entityID == EntityID.None && e.associatedPlotID == -1 && e.currentState == Growing
    ensures e.currentYieldsProduced == 0 && e.accumulatedProducts == 0
    ensures e.timeUntilNextYield == 0.0 && e.timeUntilDecay == 0.0
  {
    Entity(instanceID, EntityID.None, -1, 0, Growing, 0, 0, 0.0, 0.0, now)
  }

  /**
   * The (kind, plot) and (kind, plot, position) constructors followed by
   * InitializeFromDefinition; the two-argument form is position 0.
   */
  function NewEntity(instanceID: string, entityType: EntityID, plotID: int, position: int,
                     def: Nullable<EntityDefinition>, now: int): (e: Entity)
    ensures e.instanceID == instanceID && e.entityID == entityType
    ensures e.associatedPlotID == plotID && e.positionIndex == position
    ensures e.currentState == Growing && e.currentYieldsProduced == 0 && e.accumulatedProducts == 0
    ensures (e.timeUntilNextYield, e.timeUntilDecay) == InitialTimers(def)
    ensures e.lastUpdateTimestamp == now
  {
    var timers := InitialTimers(def);
    Entity(instanceID, entityType, plotID, position, Growing, 0, 0, timers.0, timers.1, now)
  }

  /** CanProduceMore: false without a definition, otherwise the yield limit is not reached. */
  predicate CanProduceMore(e: Entity, def: Nullable<EntityDefinition>)
  {
    def.Some? && e.currentYieldsProduced < def.value.totalYieldsLimit
  }

  /** Products can be collected from a ready or decaying entity that holds some. */
  predicate CanHarvest(e: Entity)
  {
    (e.currentState == ReadyToHarvest || e.currentState == Decaying) && e.accumulatedProducts > 0
  }

  predicate IsDead(e: Entity)
  {
    e.currentState == Dead
  }

  /** One yield: the counter goes up by one and the yield amount is added to the stock. */
  function Produce(e: Entity, d: EntityDefinition): Entity
  {
    e.(currentYieldsProduced := e.currentYieldsProduced + 1,
       accumulatedProducts := e.accumulatedProducts + d.baseYieldAmount)
  }

  /** The ReadyToHarvest case after both timers have run down by dt. */
  function ReadyStep(e: Entity, d: EntityDefinition, dt: real): Entity
  {
    var running := e.(timeUntilNextYield := e.timeUntilNextYield - dt, timeUntilDecay := e.timeUntilDecay - dt);
    var produced :=
      if running.timeUntilNextYield <= 0.0 && CanProduceMore(running, Some(d))
      then Produce(running, d).(timeUntilNextYield := d.baseProductionTime * 60.0)
      else running;
    if produced.timeUntilDecay <= 0.0 || !CanProduceMore(produced, Some(d)) then
      if produced.accumulatedProducts > 0
      then produced.(currentState := Decaying, timeUntilDecay := d.decayTimeAfterLastYield * 60.0)
      else produced.(currentState := Dead)
    else produced
  }

  /** UpdateTimers(dt): advance the life cycle by dt seconds. */
  function UpdateTimers(e: Entity, def: Nullable<EntityDefinition>, dt: real, now: int): (r: Entity)
    // Without a definition nothing changes, not even the timestamp.
    ensures def.Null? ==> r == e
    // Identity, kind and placement never change.
    ensures r.instanceID == e.instanceID && r.entityID == e.entityID
    ensures r.associatedPlotID == e.associatedPlotID && r.positionIndex == e.positionIndex
    // At most one yield per call, and a yield adds exactly the yield amount.
    ensures r.currentYieldsProduced == e.currentYieldsProduced || r.currentYieldsProduced == e.currentYieldsProduced + 1
    ensures r.currentYieldsProduced == e.currentYieldsProduced + 1 ==>
              r.accumulatedProducts == e.accumulatedProducts + def.value.baseYieldAmount
    ensures r.currentYieldsProduced == e.currentYieldsProduced ==>
              r.accumulatedProducts == e.accumulatedProducts || (r.accumulatedProducts == 0 && r.currentState == Dead)
    // Dead is a fixed point, apart from the timestamp.
    ensures e.currentState == Dead ==> r == e.(lastUpdateTimestamp := r.lastUpdateTimestamp)
  {
    match def
    case Null => e
    case Some(d) =>
      var stepped :=
        match e.currentState
        case Growing =>
          var running := e.(timeUntilNextYield := e.timeUntilNextYield - dt);
          if running.timeUntilNextYield <= 0.0
          then Produce(running, d).(currentState := ReadyToHarvest,
                                    timeUntilDecay := d.decayTimeAfterLastYield * 60.0,
                                    timeUntilNextYield := d.baseProductionTime * 60.0)
          else running
        case ReadyToHarvest => ReadyStep(e, d, dt)
        case Decaying =>
          var running := e.(timeUntilDecay := e.timeUntilDecay - dt);
          if running.timeUntilDecay <= 0.0
          then running.(currentState := Dead, accumulatedProducts := 0, timeUntilDecay := 0.0)
          else running
        case Dead => e;
      stepped.(lastUpdateTimestamp := now)
  }

  /** GetTimeRemaining: the timer that matters in the current state. */
  function GetTimeRemaining(e: Entity): (t: real)
    ensures e.currentState == Growing ==> t == e.timeUntilNextYield
    ensures e.currentState == ReadyToHarvest ==> t <= e.timeUntilNextYield && t <= e.timeUntilDecay
                                                 && (t == e.timeUntilNextYield || t == e.timeUntilDecay)
    ensures e.currentState == Decaying ==> t == e.timeUntilDecay
    ensures e.currentState == Dead ==> t == 0.0
  {
    match e.currentState
    case Growing => e.timeUntilNextYield
    case ReadyToHarvest => if e.timeUntilNextYield <= e.timeUntilDecay then e.timeUntilNextYield else e.timeUntilDecay
    case Decaying => e.timeUntilDecay
    case Dead => 0.0
  }

  /** Harvest: hand over the stock and decide whether the entity lives on. */
  function Harvest(e: Entity, def: Nullable<EntityDefinition>, now: int): (out: (HarvestResult, Entity))
    // Nothing to collect, or no definition: failure and no change at all.
    ensures !CanHarvest(e) || def.Null? ==> out == (FailedHarvest, e)
    // Otherwise the whole stock is handed over as the definition's product, and the stock is emptied.
    ensures CanHarvest(e) && def.Some? ==>
              out.0 == HarvestResult(true, def.value.productProducedItemID, e.accumulatedProducts)
              && out.1.accumulatedProducts == 0 && out.1.lastUpdateTimestamp == now
              && out.1.currentYieldsProduced == e.currentYieldsProduced
    ensures out.1.instanceID == e.instanceID && out.1.entityID == e.entityID
    ensures out.1.associatedPlotID == e.associatedPlotID && out.1.positionIndex == e.positionIndex
  {
    if !CanHarvest(e) || def.Null? then (FailedHarvest, e)
    else
      var d := def.value;
      var result := HarvestResult(true, d.productProducedItemID, e.accumulatedProducts);
      var emptied := e.(accumulatedProducts := 0);
      var after :=
        if emptied.currentState == Decaying && !CanProduceMore(emptied, def)
        then emptied.(currentState := Dead, timeUntilDecay := 0.0, timeUntilNextYield := 0.0)
        else
          var reset := emptied.(timeUntilDecay := d.decayTimeAfterLastYield * 60.0);
          if CanProduceMore(reset, def) then reset.(currentState := ReadyToHarvest)
          else reset.(currentState := Decaying);
      (result, after.(lastUpdateTimestamp := now))
  }

  /** UpdateFromOfflineTime: catch up on the seconds elapsed since the stored timestamp. */
  function UpdateFromOfflineTime(e: Entity, def: Nullable<EntityDefinition>, now: int): (r: Entity)
    ensures e.lastUpdateTimestamp <= 0 || now - e.lastUpdateTimestamp <= 0 ==> r == e
    ensures e.lastUpdateTimestamp > 0 && now - e.lastUpdateTimestamp > 0 ==>
              r == UpdateTimers(e, def, (now - e.lastUpdateTimestamp) as real, now)
  {
    if e.lastUpdateTimestamp <= 0 then e
    else
      var offlineSeconds := now - e.lastUpdateTimestamp;
      if offlineSeconds > 0 then UpdateTimers(e, def, offlineSeconds as real, now) else e
  }

  /** Growing becomes ReadyToHarvest exactly when the production timer runs out; that step yields once and restarts both timers. */
  lemma GrowingStep(e: Entity, d: EntityDefinition, dt: real, now: int)
    requires e.currentState == Growing
    ensures var r := UpdateTimers(e, Some(d), dt, now);
      && (r.currentState == ReadyToHarvest <==> e.timeUntilNextYield - dt <= 0.0)
      && (r.currentState == ReadyToHarvest ==>
            r.currentYieldsProduced == e.currentYieldsProduced + 1
            && r.accumulatedProducts == e.accumulatedProducts + d.baseYieldAmount
            && r.timeUntilNextYield == d.baseProductionTime * 60.0
            && r.timeUntilDecay == d.decayTimeAfterLastYield * 60.0)
      && (r.currentState != ReadyToHarvest ==>
            r == e.(timeUntilNextYield := e.timeUntilNextYield - dt, lastUpdateTimestamp := now))
  {
  }

  /**
   * In ReadyToHarvest a yield is added only below the limit, and the entity
   * leaves the state once the decay timer runs out or the limit is reached:
   * into Decaying if it holds products, into Dead otherwise.
   */
  lemma ReadyStepOutcome(e: Entity, d: EntityDefinition, dt: real, now: int)
    requires e.currentState == ReadyToHarvest
    ensures var r := UpdateTimers(e, Some(d), dt, now);
      && (r.currentYieldsProduced == e.currentYieldsProduced + 1 <==>
            e.timeUntilNextYield - dt <= 0.0 && e.currentYieldsProduced < d.totalYieldsLimit)
      && (r.currentState == ReadyToHarvest || r.currentState == Decaying || r.currentState == Dead)
      && (r.currentState != ReadyToHarvest <==>
            e.timeUntilDecay - dt <= 0.0 || r.currentYieldsProduced >= d.totalYieldsLimit)
      && (r.currentState == Decaying ==>
            r.accumulatedProducts > 0 && r.timeUntilDecay == d.decayTimeAfterLastYield * 60.0)
      && (r.currentState == Dead ==> r.accumulatedProducts <= 0)
      && (r.currentState == ReadyToHarvest ==> r.timeUntilDecay == e.timeUntilDecay - dt)
  {
  }

  /** Decaying becomes Dead when its timer runs out, losing its products. */
  lemma DecayingStep(e: Entity, d: EntityDefinition, dt: real, now: int)
    requires e.currentState == Decaying
    ensures var r := UpdateTimers(e, Some(d), dt, now);
      && (r.currentState == Dead <==> e.timeUntilDecay - dt <= 0.0)
      && (r.currentState == Dead ==> r.accumulatedProducts == 0 && r.timeUntilDecay == 0.0)
      && (r.currentState == Decaying ==> r.accumulatedProducts == e.accumulatedProducts
                                         && r.timeUntilDecay == e.timeUntilDecay - dt)
  {
  }

  /** Position in the life cycle. */
  function StageRank(s: EntityState): nat
  {
    match s
    case Growing => 0
    case ReadyToHarvest => 1
    case Decaying => 2
    case Dead => 3
  }

  /** Timers alone never move an entity back in its life cycle. */
  lemma UpdateTimersNeverRegresses(e: Entity, def: Nullable<EntityDefinition>, dt: real, now: int)
    ensures StageRank(UpdateTimers(e, def, dt, now).currentState) >= StageRank(e.currentState)
  {
  }

  /** The stock is never negative, and a dead entity holds none. */
  predicate ProductsInvariant(e: Entity)
  {
    e.accumulatedProducts >= 0 && (e.currentState == Dead ==> e.accumulatedProducts == 0)
  }

  lemma UpdateTimersKeepsProductsInvariant(e: Entity, def: Nullable<EntityDefinition>, dt: real, now: int)
    requires ProductsInvariant(e)
    requires def.Some? ==> def.value.baseYieldAmount >= 0
    ensures ProductsInvariant(UpdateTimers(e, def, dt, now))
  {
  }

  lemma HarvestKeepsProductsInvariant(e: Entity, def: Nullable<EntityDefinition>, now: int)
    requires ProductsInvariant(e)
    ensures ProductsInvariant(Harvest(e, def, now).1)
  {
  }

  /**
   * A growing entity has not yielded yet, and the yield counter never passes
   * the limit. (With a limit of 0 the first yield would pass it.)
   */
  predicate YieldsWithinLimit(e: Entity, d: EntityDefinition)
  {
    0 <= e.currentYieldsProduced <= d.totalYieldsLimit
    && (e.currentState == Growing ==> e.currentYieldsProduced == 0)
  }

  lemma UpdateTimersKeepsYieldsWithinLimit(e: Entity, d: EntityDefinition, dt: real, now: int)
    requires d.totalYieldsLimit >= 1
    requires YieldsWithinLimit(e, d)
    ensures YieldsWithinLimit(UpdateTimers(e, Some(d), dt, now), d)
  {
  }

  lemma HarvestKeepsYieldsWithinLimit(e: Entity, d: EntityDefinition, now: int)
    requires YieldsWithinLimit(e, d)
    ensures YieldsWithinLimit(Harvest(e, Some(d), now).1, d)
  {
  }

  /**
   * After a successful harvest the entity dies exactly when it was decaying
   * at the yield limit; otherwise the decay timer starts again and it stays
   * ready if it can yield more, or starts its final decay.
   */
  lemma HarvestOutcome(e: Entity, d: EntityDefinition, now: int)
    requires CanHarvest(e)
    ensures var after := Harvest(e, Some(d), now).1;
      && (after.currentState == Dead <==> e.currentState == Decaying && !CanProduceMore(e, Some(d)))
      && (after.currentState != Dead ==>
            after.timeUntilDecay == d.decayTimeAfterLastYield * 60.0
            && after.currentState == (if CanProduceMore(e, Some(d)) then ReadyToHarvest else Decaying))
      && (after.currentState == Dead ==> after.timeUntilDecay == 0.0 && after.timeUntilNextYield == 0.0)
  {
  }

  /** A harvested entity cannot be harvested again until it yields again. */
  lemma HarvestEmptiesStock(e: Entity, def: Nullable<EntityDefinition>, now: int)
    requires Harvest(e, def, now).0.success
    ensures !CanHarvest(Harvest(e, def, now).1)
  {
  }
}
