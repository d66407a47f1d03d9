/**
 * The equipment bonus and the two player upgrades of the data manager.
 * Mathf.RoundToInt is modelled exactly over the reals (round half to even);
 * the float arithmetic of the multiplier is exact here.
 */
module GameDataManager {
  import opened Wrappers
  import opened GameSettings
  import PlayerState
  import PlayerData
  import GameState
  import GameSaveData

  /** Mathf.RoundToInt: the nearest integer, and the even one of two at a tie. */
  function RoundToInt(x: real): (r: int)
    ensures x - 0.5 <= r as real <= x + 0.5
    ensures r as real - x == 0.5 || x - r as real == 0.5 ==> r % 2 == 0
    ensures x == x.Floor as real ==> r == x.Floor
  {
    var f := x.Floor;
    var frac := x - f as real;
    if frac < 0.5 then f
    else if frac > 0.5 then f + 1
    else if f % 2 == 0 then f
    else f + 1
  }

  /** The player's equipment level, 1 when there is no player data. */
  function GetPlayerEquipmentLevel(player: Nullable<PlayerState.Player>): (level: int)
    ensures player.Null? ==> level == 1
    ensures player.Some? ==> level == player.value.equipmentLevel
  {
    if player.Some? then player.value.equipmentLevel else 1
  }

  /** The yield bonus per level above 1, a tenth without settings. */
  function BonusPerLevel(settings: Nullable<GameSettings>): real
  {
    if settings.Some? then settings.value.equipmentYieldBonusPerLevel else 0.1
  }

  /** 1 at level 1, rising by the per-level bonus with every level above it. */
  function GetEquipmentYieldMultiplier(settings: Nullable<GameSettings>, player: Nullable<PlayerState.Player>): (m: real)
    ensures GetPlayerEquipmentLevel(player) == 1 ==> m == 1.0
    ensures GetPlayerEquipmentLevel(player) >= 1 && BonusPerLevel(settings) >= 0.0 ==> m >= 1.0
    ensures settings.Null? ==> m == 1.0 + (GetPlayerEquipmentLevel(player) - 1) as real * 0.1
  {
    1.0 + (GetPlayerEquipmentLevel(player) - 1) as real * BonusPerLevel(settings)
  }

  /** The harvested amount with the equipment bonus applied and rounded. */
  function GetBonusAdjustedAmount(settings: Nullable<GameSettings>, player: Nullable<PlayerState.Player>,
                                  baseAmount: int): (amount: int)
    ensures (amount as real - baseAmount as real * GetEquipmentYieldMultiplier(settings, player)) <= 0.5
    ensures (baseAmount as real * GetEquipmentYieldMultiplier(settings, player) - amount as real) <= 0.5
  {
    RoundToInt(baseAmount as real * GetEquipmentYieldMultiplier(settings, player))
  }

  /** At level 1 (and without player data) the bonus changes nothing. */
  lemma BonusIsIdentityAtLevelOne(settings: Nullable<GameSettings>, player: Nullable<PlayerState.Player>, baseAmount: int)
    requires GetPlayerEquipmentLevel(player) == 1
    ensures GetBonusAdjustedAmount(settings, player, baseAmount) == baseAmount
  {
    assert baseAmount as real * GetEquipmentYieldMultiplier(settings, player) == baseAmount as real;
  }

  /** From level 1 upwards, with a non-negative bonus, a non-negative amount never shrinks. */
  lemma BonusNeverShrinks(settings: Nullable<GameSettings>, player: Nullable<PlayerState.Player>, baseAmount: int)
    requires baseAmount >= 0 && GetPlayerEquipmentLevel(player) >= 1 && BonusPerLevel(settings) >= 0.0
    ensures GetBonusAdjustedAmount(settings, player, baseAmount) >= baseAmount
  {
    var m := GetEquipmentYieldMultiplier(settings, player);
    var b := baseAmount as real;
    ScalingUpNeverShrinks(b, m);
    var r := GetBonusAdjustedAmount(settings, player, baseAmount);
    assert r as real >= b - 0.5;
  }

  lemma ScalingUpNeverShrinks(b: real, m: real)
    requires b >= 0.0 && m >= 1.0
    ensures b * m >= b
  {
    ProductOfNonNegatives(b, m - 1.0);
    assert b * m == b + b * (m - 1.0);
  }

  lemma ProductOfNonNegatives(a: real, b: real)
    requires a >= 0.0 && b >= 0.0
    ensures a * b >= 0.0
  {
  }

  /** UpgradePlayerEquipment: one level up; nothing happens without player data. */
  method UpgradePlayerEquipment(player: PlayerData.PlayerData?)
    modifies player
    ensures player != null ==> player.Value() == old(player.Value()).(equipmentLevel := old(player.equipmentLevel) + 1)
  {
    if player != null {
      player.equipmentLevel := player.equipmentLevel + 1;
    }
  }

  /**
   * AddNewWorkerToPlayer: the hired total is incremented, then AddWorker
   * appends the worker and overwrites the total with the list's length.
   */
  method AddNewWorkerToPlayer(game: GameSaveData.GameSaveData?, now: int)
    modifies game, if game == null then {} else {game.player}
    ensures game != null ==> game.player == old(game.player)
    ensures game != null ==> game.State() == GameState.AddWorker(old(game.State()), now)
  {
    if game != null {
      var player := game.player;
      player.totalWorkersHired := player.totalWorkersHired + 1;
      game.AddWorker(now);
    }
  }

  /** The increment of AddNewWorkerToPlayer is lost: the total ends at the new list length either way. */
  lemma AddNewWorkerLeavesHiredEqualToList(s: GameState.GameState, now: int)
    ensures var r := GameState.AddWorker(s.(player := s.player.(totalWorkersHired := s.player.totalWorkersHired + 1)), now);
            r == GameState.AddWorker(s, now) && r.player.totalWorkersHired == |s.workers| + 1
  {
  }
}
