/**
 * The checkpoint snapshot of pkg/game/state.go: what `SaveCheckpoint` records and
 * what `RestoreCheckpoint` puts back. Everything here is a value, so the snapshot
 * shares nothing with the live state and later changes to the state leave it alone.
 */
module Checkpoints {
  import opened Geometry
  import opened Entities

  datatype Checkpoint = Checkpoint(
    grid: Grid,
    playerPosition: IVector2,
    playerKeys: int,
    playerBombs: int,
    playerBombSlots: int,
    eepers: seq<Eeper>,
    items: seq<Item>,
    bombs: seq<Bomb>)

  /** The empty checkpoint a new state starts with. */
  function NoCheckpoint(): Checkpoint {
    Checkpoint([], IVector2(0, 0), 0, 0, 0, [], [], [])
  }

  /** The snapshot `SaveCheckpoint` takes of the map, the player's inventory and position, the eepers, items and bombs. */
  function Capture(m: Grid, p: Player, eepers: seq<Eeper>, items: seq<Item>, bombs: seq<Bomb>): Checkpoint {
    Checkpoint(m, p.position, p.keys, p.bombs, p.bombSlots, eepers, items, bombs)
  }

  /** The player after `RestoreCheckpoint`: back at the saved position, alive and at full health. */
  function RestoredPlayer(p: Player, c: Checkpoint): Player {
    p.(position := c.playerPosition, prevPosition := c.playerPosition, keys := c.playerKeys,
       bombs := c.playerBombs, bombSlots := c.playerBombSlots, dead := false, health := 1.0)
  }

  /**
   * Restoring a checkpoint just taken gives back the map, the player's position,
   * keys, bombs and bomb slots, the eepers with their paths, the items and the bombs,
   * and revives the player in place.
   */
  lemma SaveThenRestore(m: Grid, p: Player, eepers: seq<Eeper>, items: seq<Item>, bombs: seq<Bomb>)
    ensures var c := Capture(m, p, eepers, items, bombs);
            && c.grid == m && c.eepers == eepers && c.items == items && c.bombs == bombs
            && RestoredPlayer(p, c).position == p.position
            && RestoredPlayer(p, c).keys == p.keys
            && RestoredPlayer(p, c).bombs == p.bombs
            && RestoredPlayer(p, c).bombSlots == p.bombSlots
            && RestoredPlayer(p, c).prevPosition == p.position
            && !RestoredPlayer(p, c).dead && RestoredPlayer(p, c).health == 1.0
  {
  }

  /** Restoring depends on the checkpoint only: two players restored from one checkpoint agree on everything it holds. */
  lemma RestoreIsIdempotent(p: Player, c: Checkpoint)
    ensures RestoredPlayer(RestoredPlayer(p, c), c) == RestoredPlayer(p, c)
  {
  }
}
