/**
 * The level transitions of pkg/game/state.go as functions of the game's state:
 * loading a level from its file, the hub of the current world, the next level after
 * the father is reached, and a level behind a portal. The `State` methods that do
 * these in place are proved equal to them.
 */
module Transitions {
  import opened Wrappers
  import opened Geometry
  import opened Entities
  import Tutorial
  import Checkpoints
  import Levels

  /** The part of the game state the transitions read and write. */
  datatype Play = Play(
    grid: Grid,
    player: Player,
    items: seq<Item>,
    eepers: seq<Eeper>,
    bombs: seq<Bomb>,
    explosions: seq<Explosion>,
    portals: seq<Portal>,
    turnAnimation: real,
    tutorial: Tutorial.TutorialState,
    checkpoint: Checkpoints.Checkpoint,
    inHub: bool,
    currentLevelPath: string)

  /** Opening and decoding a level file: `None` when either fails. */
  type Files = string -> Option<Levels.Image>

  /**
   * The player after a level has been loaded: placed on the level's last player pixel,
   * alive at full health, with one bomb slot and no bombs or keys.
   */
  function Started(p: Player, img: Levels.Image): (r: Player)
    ensures !r.dead && r.health == 1.0 && !r.reachedFather && r.victoryTime == 0.0
    ensures r.bombSlots == 1 && r.bombs == 0 && r.keys == 0
    ensures Levels.LastPlayerPixel(Levels.FullScan(img)).None? ==> r.position == p.position
    ensures Levels.LastPlayerPixel(Levels.FullScan(img)).Some? ==>
              r.position == Levels.LastPlayerPixel(Levels.FullScan(img)).value
  {
    Levels.PlacedOnLastPlayerPixel(p, Levels.FullScan(img), true);
    Levels.Placed(p, Levels.FullScan(img), true).(
      health := 1.0, dead := false, reachedFather := false, victoryTime := 0.0, bombSlots := 1, bombs := 0, keys := 0)
  }

  /** The state with the bombs, explosions, eepers, items and portals of the old level gone. */
  function Cleared(s: Play): Play {
    s.(bombs := [], explosions := [], eepers := [], items := [], portals := [], turnAnimation := 0.0)
  }

  /**
   * `LoadLevel`: nothing happens for an empty path (`r.1`, the error, false); otherwise
   * the old level is cleared and, when the file opens and decodes, the level is loaded
   * (see `LoadLevelStarts`). The error is set exactly when the file of a non-empty path
   * cannot be read, and then only the clearing has happened.
   */
  function LoadLevel(s: Play, files: Files, sp: Spawner, path: string, isHub: bool): (r: (Play, bool))
    ensures r.1 <==> path != "" && files(path).None?
    ensures path == "" ==> r.0 == s
    ensures r.1 ==> r.0 == Cleared(s)
  {
    if path == "" then (s, false)
    else
      match files(path)
      case None => (Cleared(s), true)
      case Some(img) =>
        var ms := Levels.FullScan(img);
        var g, p := Levels.DecodedGrid(img), Started(s.player, img);
        var es, its := Levels.EepersOf(sp, ms), Levels.ItemsOf(ms);
        (Cleared(s).(grid := g, player := p, eepers := es, items := its, currentLevelPath := path, inHub := isHub,
                     checkpoint := Checkpoints.Capture(g, p, es, its, [])), false)
  }

  /** A level that loads: the state `LoadLevel` builds, field by field. */
  lemma LoadLevelLoads(s: Play, files: Files, sp: Spawner, path: string, isHub: bool)
    requires path != "" && files(path).Some?
    ensures var img := files(path).value;
            var g, p := Levels.DecodedGrid(img), Started(s.player, img);
            var es, its := Levels.EepersOf(sp, Levels.FullScan(img)), Levels.ItemsOf(Levels.FullScan(img));
            LoadLevel(s, files, sp, path, isHub)
              == (Play(g, p, its, es, [], [], [], 0.0, s.tutorial, Checkpoints.Capture(g, p, es, its, []), isHub, path), false)
  {
  }

  /**
   * A level that loads: its decoded map, items and eepers replace the old level's,
   * nothing else of the old level is left, the player is reset, the path and hub flag
   * are recorded, and the checkpoint is taken of exactly that level, so that dying at
   * once and restoring gives it back.
   */
  lemma LoadLevelStarts(s: Play, files: Files, sp: Spawner, path: string, isHub: bool)
    requires path != "" && files(path).Some?
    ensures var r := LoadLevel(s, files, sp, path, isHub).0;
            var img := files(path).value;
            && !LoadLevel(s, files, sp, path, isHub).1
            && r.grid == Levels.DecodedGrid(img) && Rectangular(r.grid)
            && r.items == Levels.ItemsOf(Levels.FullScan(img))
            && r.eepers == Levels.EepersOf(sp, Levels.FullScan(img))
            && r.bombs == [] && r.explosions == [] && r.portals == [] && r.turnAnimation == 0.0
            && r.currentLevelPath == path && r.inHub == isHub && r.tutorial == s.tutorial
            && !r.player.dead && r.player.health == 1.0 && r.player.bombSlots == 1
            && r.player.bombs == 0 && r.player.keys == 0
            && r.checkpoint == Checkpoints.Capture(r.grid, r.player, r.eepers, r.items, r.bombs)
            && Checkpoints.RestoredPlayer(r.player, r.checkpoint) == r.player.(prevPosition := r.player.position)
  {
  }
}
