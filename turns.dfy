/**
 * One turn of the game loop (cmd/eepers-go/main.go): after a move in direction `dir`
 * the player takes their turn, the turn animation restarts, the items tick, the eepers
 * take their turn and the bombs count down.
 */
module Turns {
  import opened Geometry
  import opened Entities
  import Players
  import Items
  import Eepers
  import Bombs
  import Transitions

  /** What the player's turn reads and writes of the game state. */
  function SceneOf(s: Transitions.Play): Players.Scene {
    Players.Scene(s.grid, s.player, s.items, s.eepers, s.bombs, s.portals, s.tutorial, s.checkpoint)
  }

  /** The player's turn in direction `dir`, and the turn animation restarted. */
  ghost function Moved(s: Transitions.Play, dir: Players.Direction, now: real): Transitions.Play
    requires Rectangular(s.grid)
  {
    var sc := Players.Turn(SceneOf(s), dir, now);
    s.(grid := sc.grid, player := sc.player, items := sc.items, tutorial := sc.tutorial, checkpoint := sc.checkpoint,
       turnAnimation := 1.0)
  }

  /** The items' turn. */
  function ItemsTicked(s: Transitions.Play): Transitions.Play {
    s.(items := Items.Tick(s.items))
  }

  /** The eepers' turn. */
  function EepersMoved(s: Transitions.Play, now: real): Transitions.Play
    requires Rectangular(s.grid)
  {
    var pk := Eepers.UpdateAll(s.grid, Eepers.Pack(s.player, s.eepers), now);
    s.(player := pk.player, eepers := pk.eepers)
  }

  /** The bombs' turn. */
  function BombsTicked(s: Transitions.Play, sp: Spawner, now: real): Transitions.Play
    requires Rectangular(s.grid) && Bombs.FusesInMap(s.grid, s.bombs)
  {
    var t := Bombs.UpdateBombs(Bombs.Arena(s.grid, s.explosions, s.player, s.eepers), s.bombs, s.items, sp, now);
    s.(grid := t.arena.grid, player := t.arena.player, eepers := t.arena.eepers, explosions := t.arena.explosions,
       bombs := t.bombs, items := t.items)
  }

  /** The bombs' turn, given the outcome `t` of `UpdateBombs`. */
  lemma BombsTickedIs(s: Transitions.Play, sp: Spawner, now: real, t: Bombs.Turnout)
    requires Rectangular(s.grid) && Bombs.FusesInMap(s.grid, s.bombs)
    requires t == Bombs.UpdateBombs(Bombs.Arena(s.grid, s.explosions, s.player, s.eepers), s.bombs, s.items, sp, now)
    ensures BombsTicked(s, sp, now) == s.(grid := t.arena.grid, player := t.arena.player, eepers := t.arena.eepers,
                                          explosions := t.arena.explosions, bombs := t.bombs, items := t.items)
  {
  }

  /**
   * The state after one turn in direction `dir` at time `now`. The bombs that go off on
   * this countdown must lie in the map, as the blast's first cell write needs.
   */
  ghost function Tick(s: Transitions.Play, sp: Spawner, dir: Players.Direction, now: real): Transitions.Play
    requires Rectangular(s.grid) && Bombs.FusesInMap(s.grid, s.bombs)
  {
    MovedKeepsShape(s, dir, now);
    BombsTicked(EepersMoved(ItemsTicked(Moved(s, dir, now)), now), sp, now)
  }

  /** The player's turn keeps the map's shape, so the bombs about to go off stay in the map. */
  lemma MovedKeepsShape(s: Transitions.Play, dir: Players.Direction, now: real)
    requires Rectangular(s.grid) && Bombs.FusesInMap(s.grid, s.bombs)
    ensures Rectangular(Moved(s, dir, now).grid) && Bombs.FusesInMap(Moved(s, dir, now).grid, Moved(s, dir, now).bombs)
  {
    Players.TurnKeepsShape(SceneOf(s), dir, now);
    Players.TurnMovesAtMostOneStep(SceneOf(s), dir, now);
    FusesInSameShape(s.grid, Moved(s, dir, now).grid, s.bombs);
  }

  /** Whether the bombs about to go off lie in the map depends only on the map's shape. */
  lemma FusesInSameShape(g: Grid, g': Grid, bs: seq<Bomb>)
    requires Rectangular(g) && SameShape(g, g') && Bombs.FusesInMap(g, bs)
    ensures Bombs.FusesInMap(g', bs)
  {
    if |g| > 0 {
      assert |g'[0]| == |g[0]|;
    }
  }

  /**
   * Over a whole turn the player moves at most one cell, in the chosen direction; the
   * bombs are ticked once with the spent ones gone; a dead player stays dead; the
   * portals, level path and hub flag are kept; and the turn animation restarts.
   */
  lemma TickMovesAtMostOneStep(s: Transitions.Play, sp: Spawner, dir: Players.Direction, now: real)
    requires Rectangular(s.grid) && Bombs.FusesInMap(s.grid, s.bombs)
    ensures var r := Tick(s, sp, dir, now);
            && (r.player.position == s.player.position || r.player.position == s.player.position.Add(Players.Vector(dir)))
            && r.bombs == Bombs.Ticked(s.bombs)
            && (s.player.dead ==> r.player.dead)
            && r.portals == s.portals && r.currentLevelPath == s.currentLevelPath && r.inHub == s.inHub
            && r.turnAnimation == 1.0
  {
    MovedKeepsShape(s, dir, now);
    var s1 := ItemsTicked(Moved(s, dir, now));
    Players.TurnMovesAtMostOneStep(SceneOf(s), dir, now);
    Eepers.UpdateKeepsPlayerPlace(s1.grid, Eepers.Pack(s1.player, s1.eepers), 0, now);
    var s2 := EepersMoved(s1, now);
    Bombs.UpdateBombsOutcome(Bombs.Arena(s2.grid, s2.explosions, s2.player, s2.eepers), s2.bombs, s2.items, sp, now);
  }
}
