/**
 * The world/level lookup table (pkg/game/world.go): a list of worlds, each with a hub
 * level and numbered levels reached through portals, and the index of the current world.
 */
module Worlds {

  datatype World = World(name: string, hubLevel: string, levels: seq<string>)

  class WorldConfig {
    var worlds: seq<World>
    var currentWorld: int

    constructor (worlds: seq<World>, currentWorld: int)
      ensures this.worlds == worlds && this.currentWorld == currentWorld
    {
      this.worlds := worlds;
      this.currentWorld := currentWorld;
    }

    /** The current world index selects a world. */
    predicate ValidWorld()
      reads this
    {
      0 <= currentWorld < |worlds|
    }

    function GetCurrentHub(): (hub: string)
      reads this
      ensures !ValidWorld() ==> hub == ""
      ensures ValidWorld() ==> hub == worlds[currentWorld].hubLevel
    {
      if currentWorld < 0 || currentWorld >= |worlds| then "" else worlds[currentWorld].hubLevel
    }

    /** The level behind portal `portalNumber`: portal 1 opens the first level. */
    function GetLevel(portalNumber: int): (path: string)
      reads this
      ensures !ValidWorld() ==> path == ""
      ensures ValidWorld() && 1 <= portalNumber <= |worlds[currentWorld].levels| ==>
                path == worlds[currentWorld].levels[portalNumber - 1]
      ensures ValidWorld() && !(1 <= portalNumber <= |worlds[currentWorld].levels|) ==> path == ""
    {
      if currentWorld < 0 || currentWorld >= |worlds| then ""
      else
        var world := worlds[currentWorld];
        var levelIndex := portalNumber - 1;
        if levelIndex < 0 || levelIndex >= |world.levels| then "" else world.levels[levelIndex]
    }

    predicate HasLevel(portalNumber: int)
      reads this
    {
      if currentWorld < 0 || currentWorld >= |worlds| then false
      else
        var levelIndex := portalNumber - 1;
        levelIndex >= 0 && levelIndex < |worlds[currentWorld].levels|
    }

    function GetTotalLevelsInCurrentWorld(): (n: nat)
      reads this
      ensures !ValidWorld() ==> n == 0
      ensures ValidWorld() ==> n == |worlds[currentWorld].levels|
    {
      if currentWorld < 0 || currentWorld >= |worlds| then 0 else |worlds[currentWorld].levels|
    }

    function GetCurrentWorldName(): (name: string)
      reads this
      ensures !ValidWorld() ==> name == ""
      ensures ValidWorld() ==> name == worlds[currentWorld].name
    {
      if currentWorld < 0 || currentWorld >= |worlds| then "" else worlds[currentWorld].name
    }

    /** Advance to the next world when there is one. */
    method NextWorld() returns (advanced: bool)
      modifies this`currentWorld
      ensures advanced <==> old(currentWorld) + 1 < |worlds|
      ensures currentWorld == if advanced then old(currentWorld) + 1 else old(currentWorld)
    {
      if currentWorld + 1 < |worlds| {
        currentWorld := currentWorld + 1;
        return true;
      }
      return false;
    }

    /**
     * The lookups agree with each other: a portal number has a level exactly when it
     * lies in `1..GetTotalLevelsInCurrentWorld()`, and then `GetLevel` takes its in-range branch.
     */
    lemma LookupsAgree(portalNumber: int)
      ensures HasLevel(portalNumber) <==> 1 <= portalNumber <= GetTotalLevelsInCurrentWorld()
      ensures HasLevel(portalNumber) ==> GetLevel(portalNumber) == worlds[currentWorld].levels[portalNumber - 1]
      ensures !HasLevel(portalNumber) ==> GetLevel(portalNumber) == ""
    {
    }
  }
}
