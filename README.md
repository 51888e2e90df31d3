# eepers-go core, modelled in Dafny

This project models the simulation core of *eepers-go*, a turn-based tile-grid game.
The player walks a map of floor, wall, door and barricade cells, picks up keys, bombs,
bomb slots and checkpoints, opens door clusters with keys and plants bombs. Bomb blasts
run in a cross of up to four cells and flood-fill whole barricades. Guards ("eepers")
chase the player by breadth-first search and attack when they stand on the player.
Levels are decoded from images and reached through portals in a hub. Checkpoints save
and restore the play state.

Each Go file of the core has a module here:

- `Geometry`: `IVector2`, `Cell`, `Directions`, the map bounds test, single-cell writes
  and connected regions.
- `Pathfinding`: the shortest floor path (`bfs.go`).
- `Entities`: the entity records and the portal footprint (`pkg/entities`).
- `Players`: `KillPlayer`, `RemoveDoor`, `PlayerTurn` and item pick-up (`player.go`).
- `Eepers`: the guard's turn (`eepers.go`).
- `Bombs`: `PlantBomb`, `UpdateBombs`, `Explode`, `damageAtPosition` and `FloodFill` (`bomb.go`).
- `Explosions`, `Items`, `Portals`, `Checkpoints`, `Menu`, `Tutorial`, `Worlds`: the
  files of the same names.
- `Levels`: the level decoder (`level.go`).
- `Transitions`: `LoadLevel` as a function of the play state.
- `Turns`: the per-key turn of the main loop.

The modules hold the logic as functions and lemmas. The game's `State` aggregate is the
class `Game.State`: its fields are the Go struct's fields, and its methods update them in
place with the same loops as the Go code. Every method's `ensures` equates its new state
with the function that specifies it, and the lemmas prove what the game promises about
those functions. The pause menu (`Menu.MenuState`) and the world table
(`Worlds.WorldConfig`) are classes too, because the game updates them in place.

Modelling choices:

- **Numbers.** `float32` health, times and portal progress are `real`. Integers are
  unbounded.
- **Go maps.** `RemoveDoor` iterates a Go map, so the order of its four directions is the
  parameter `order`; the result is proved independent of it. The colour table in
  `level.go` is also a Go map, but its colours are pairwise distinct, so the model looks
  the colour up in a fixed order (`Levels.ClassOfIsTheMatch`).
- **Spawners.** `SpawnGuard`, `SpawnMother` and `SpawnGnome` are called but not defined in
  the sources. The model appends one live eeper of that kind, whose size and health come
  from a `Spawner` parameter.
- **Outside inputs.** Clock readings are the parameter `now`. Level files are the
  parameter `files` (a path to an optional image).
- **Design description versus code.** Where the game's design description and the code
  differ, the model follows the code:
  - cells turned to explosions by a barricade flood-fill do not damage anyone (`bomb.go:104` never calls `damageAtPosition`);
  - a level that fails to load leaves the cleared state behind, not the old one (`state.go:143-154`);
  - guards use a point-to-point BFS, not a distance field (`bfs.go`);
  - the sprint hint's step interval is measured from the whole second of the previous
    step (`tutorial.go:126,134`), so two steps 0.1 s apart late in a second count as slow,
    and quick movement mostly lowers the hurry count
    (`Tutorial.QuickStepsLateInSecondCountAsSlow`).

## Model

| member | source | states |
|---|---|---|
| Geometry.AddCommutes | pkg/world/ivector2.go:9-11 | vector addition is commutative |
| Geometry.AddAssociates | pkg/world/ivector2.go:9-11 | vector addition is associative |
| Geometry.SubUndoesAdd | pkg/world/ivector2.go:9-16 | `v.Add(w).Sub(w) == v` |
| Geometry.MulByOneAndZero | pkg/world/ivector2.go:19-21 | `Mul(1)` is the identity and `Mul(0)` the zero vector |
| Geometry.MulStep | pkg/world/ivector2.go:9-21 | `p + d*(i+1) == (p + d*i) + d`, the stepping a blast ray uses |
| Geometry.DirectionsAreUnitSteps | pkg/game/directions.go:6-11 | the `Directions` table holds exactly the four unit steps |
| Geometry.Put | pkg/game/bomb.go:83 | writing a cell keeps the map rectangular and its shape, sets that cell and leaves every other cell unchanged |
| Geometry.ClosedSetContainsRegion | pkg/game/bomb.go:168-191 | any set holding the start and closed under steps onto `through` cells contains the whole connected region |
| Pathfinding.NeighborIsAdjacent | pkg/pathfinding/bfs.go:25-26 | each of the four search steps leads to a 4-adjacent point |
| Pathfinding.Expand | pkg/pathfinding/bfs.go:25-33 | expanding a path only adds points to `visited`, within the grid's cells and the start, and queues nothing when it adds none |
| Pathfinding.BFS | pkg/pathfinding/bfs.go:11-42 | the loop returns `ShortestPath`: a path from `start` to `end` by unit steps over in-bounds floor cells (the start unchecked), with no repeated point and no longer than any other such path; `None` exactly when `end` is unreachable |
| Pathfinding.ExpandPath | pkg/pathfinding/bfs.go:25-34 | the inner loop over the four steps computes `Expand` |
| Pathfinding.SearchCorrect | pkg/pathfinding/bfs.go:16-37 | from any queue state satisfying the search invariant (FIFO layers, visited set, distances), the search result is a shortest, repetition-free path or `None` exactly when unreachable |
| Pathfinding.FrontIsShortest | pkg/pathfinding/bfs.go:17-23 | when the path at the front of the queue ends at `end`, no path to `end` is shorter |
| Pathfinding.EmptyQueueMeansUnreachable | pkg/pathfinding/bfs.go:16-37 | an exhausted queue means `end` is unreachable |
| Pathfinding.ShortestPathCorrect | pkg/pathfinding/bfs.go:11-38 | `ShortestPath` meets the search specification for every grid, start and end |
| Pathfinding.ShortestPathToStart | pkg/pathfinding/bfs.go:21-23 | the path from a point to itself is `[start]`, whatever its cell |
| Entities.UnitEeperCoversOnlyItsPosition | pkg/game/eepers.go:83-86 | a 1x1 eeper's half-open rectangle holds exactly its position |
| Entities.EeperCoversItsCorner | pkg/game/bomb.go:139-143 | a non-empty rectangle holds its corner and nothing above or left of it |
| Entities.Portal.ContainsPosition | pkg/entities/portal.go:36-43 | the loop returns true exactly when `pos` is one of the portal's cells |
| Entities.Portal.DistanceToPlayer | pkg/entities/portal.go:46-50 | the squared distance is non-negative and zero exactly at the centre |
| Entities.NewPortal | pkg/entities/portal.go:15-33 | the nested loop builds the 3x3 footprint row by row, with progress 0 and not activated |
| Entities.FootprintIsBlock | pkg/entities/portal.go:15-33 | the footprint has nine distinct cells, contains the centre, and holds `p` exactly when `p` is within one cell of the centre in both axes |
| Players.KillPlayerIsIdempotent | pkg/game/player.go:146-153 | killing sets dead, health 0 and the time of death the first time; a dead player is unchanged, so killing twice is killing once |
| Players.DoorRegionIsUniform | pkg/game/player.go:39-66 | every cell of a door region is in the map and of the start's own kind (door or barricade); an openable start belongs to its region |
| Players.RemovingEnds | pkg/game/player.go:35-69 | when the queue runs dry, the cells opened are exactly the 8-connected region of the start's kind |
| Players.DoorSearchComplete | pkg/game/player.go:35-69 | a finished search whose opened cells are closed under the eight steps has opened exactly the door region |
| Players.DoorSearchStep | pkg/game/player.go:36-41 | popping the queue head opens it exactly when it is an unopened door or barricade of the region, and keeps the search invariant either way |
| Players.UnvisitedTest | pkg/game/player.go:46-62 | the Go test on the partly opened map, "same kind as the start", agrees with the test on the original map |
| Players.PickUpItem | pkg/game/player.go:88-116 | one item's pick-up keeps the number of items |
| Players.PickUpFrom | pkg/game/player.go:88-117 | the pick-up loop keeps the number of items |
| Players.PickUpItemEffects | pkg/game/player.go:90-115 | a key gives a key and is used up; a bomb slot gives a slot and is used up; a bomb refill is taken only with a free slot and no cooldown (one more bomb, cooldown 10, item kept) and otherwise nothing changes; a checkpoint is used up and then saved; other items are unchanged |
| Players.PickUpItemKeepsBombsWithinSlots | pkg/game/player.go:96-106 | `Bombs <= BombSlots` is kept and bombs never decrease |
| Players.PickUpKeepsBombsWithinSlots | pkg/game/player.go:88-117 | the pick-up loop over all items keeps `Bombs <= BombSlots` |
| Players.PickUpLeavesOtherCells | pkg/game/player.go:88-91 | items on other cells are untouched |
| Players.PickUpKeepsLook | pkg/game/player.go:88-117 | picking up never moves the player or its gaze and never loses keys |
| Players.PickUpKeepsLife | pkg/game/player.go:88-117 | picking up never changes `Dead` or `Health` |
| Players.TurnLooksAhead | pkg/game/player.go:74-78 | every turn sets `PrevPosition` to the old position and `EyesTarget` two steps ahead |
| Players.TurnStays | pkg/game/player.go:80-137 | off the map, or onto a cell that is neither floor nor door, a turn only sets the gaze |
| Players.TurnBlocked | pkg/game/player.go:80-137 | off the map, or onto a wall, barricade, explosion or empty cell, the player does not move and nothing else changes |
| Players.TurnAtDoor | pkg/game/player.go:128-134 | at a door with a key: one key fewer, the door cluster opened and the player on the door cell; without a key nothing changes |
| Players.TurnEntersOpenPortal | pkg/game/player.go:119-127 | stepping onto floor in an open portal (progress above 0.8) moves the player there, marks it entering, records the portal id and leaves the map alone |
| Players.TurnKeepsBombsWithinSlots | pkg/game/player.go:73-138 | a whole turn keeps `Bombs <= BombSlots` |
| Players.TurnKeepsShape | pkg/game/player.go:73-138 | a turn keeps the map rectangular and of the same shape |
| Players.TurnMovesAtMostOneStep | pkg/game/player.go:73-138 | the player stays or moves exactly one step in the chosen direction; life, eepers, bombs and portals are unchanged |
| Players.OntoFloorMoves | pkg/game/player.go:85-127 | stepping onto floor moves the player there and changes neither the gaze, life, map, eepers, bombs nor portals |
| Eepers.CanStandHereIgnoresSelf | pkg/game/eepers.go:65-81 | whether a cell is free for eeper `i` does not depend on eeper `i` itself |
| Eepers.GuardTurn | pkg/game/eepers.go:34-63 | a guard's turn keeps the number of eepers |
| Eepers.GuardTurnTouchesOnlyItself | pkg/game/eepers.go:34-63 | a guard's turn changes no other eeper and keeps its own kind, size and health |
| Eepers.HealthlessGuardDies | pkg/game/eepers.go:35-38 | a guard with health at most 0 is marked dead and nothing else happens |
| Eepers.GuardStepsTowardsPlayer | pkg/game/eepers.go:44-52 | a guard moves only onto `path[1]` of the shortest path to the player, a unit step onto a cell where it can stand, recording its previous position and leaving the player alone; a live guard whose path has a second point that it can stand on always moves there |
| Eepers.GuardAttacksOnlyWhenReady | pkg/game/eepers.go:40-62 | a live guard hurts the player exactly when its path to the player has at most one point, its counted-down cooldown is 0 and its rectangle holds the player; the hit costs 0.35 health (killing at 0), the cooldown becomes 5 and the guard stays put; a live guard that does not attack keeps the counted-down cooldown |
| Eepers.GuardOnPlayerAttacks | pkg/game/eepers.go:44-62 | a live 1x1 guard on the player's cell whose cooldown is at most 1 attacks: the player takes a hit and the cooldown becomes 5 |
| Eepers.HitDamages | pkg/game/eepers.go:56-59 | a hit takes 0.35 health and kills when health reaches 0 |
| Eepers.GuardTurnKeepsCooldownInRange | pkg/game/eepers.go:40-60 | the attack cooldown stays within [0, 5] |
| Eepers.UpdateFrom | pkg/game/eepers.go:14-32 | updating the eepers keeps their number |
| Eepers.UpdateLeavesOthers | pkg/game/eepers.go:15-31 | dead eepers and non-guards are skipped; kinds and sizes never change |
| Eepers.UpdateBuriesHealthless | pkg/game/eepers.go:21-38 | every guard with health at most 0 ends the update dead |
| Eepers.UpdateKeepsPlayerPlace | pkg/game/eepers.go:14-32 | the eepers' turn never moves the player and never revives a dead one |
| Explosions.SurvivorsAreTheUnexpired | pkg/game/explosion.go:6-16 | the survivors are exactly the unexpired explosions with their timer one lower, all with timer above 0, and the list never grows |
| Explosions.SurvivorsOfConcat | pkg/game/explosion.go:7-13 | survivors keep their relative order |
| Explosions.Lifetime | pkg/game/explosion.go:9-14 | an explosion with timer `t` survives `t - 1` updates with its timer counted down and is gone after the `t`-th |
| Explosions.BlastLastsTwentyUpdates | pkg/game/explosion.go:9-14 | a fresh blast (timer 20) is removed on exactly the 20th update |
| Items.TickChangesOnlyCooldowns | pkg/game/items.go:4-12 | `ItemsTurn` counts every positive cooldown down by one and changes nothing else; a cooldown at or above 0 stays so |
| Items.TickManyCooldowns | pkg/game/items.go:8-10 | after `k` turns a cooldown `c >= 0` is `max(c - k, 0)`, and kinds and positions are unchanged |
| Portals.ProgressedStaysInRange | pkg/game/portal.go:31-49 | near the player (squared distance below 9) progress rises by 0.15 capped at 1, otherwise falls by 0.15 floored at 0; it stays in [0, 1] and nothing else changes |
| Portals.UpdateAllKeepsPortals | pkg/game/portal.go:23-57 | updating keeps the portal count and every field but progress, and keeps progress in [0, 1] |
| Portals.PortalAtFrom | pkg/game/portal.go:60-67 | the lookup returns the first portal whose cells hold `pos`, and nothing exactly when none does |
| Checkpoints.SaveThenRestore | pkg/game/state.go:52-133 | restoring right after saving gives back the map, the eepers, the items, the bombs and the player's position, keys, bombs and slots; the player is alive with health 1 and `PrevPosition` equal to the position |
| Checkpoints.RestoreIsIdempotent | pkg/game/state.go:90-134 | restoring twice is restoring once |
| Bombs.DamageAtHitsExactly | pkg/game/bomb.go:124-143 | `damageAtPosition` kills the player exactly when the player is at `pos`, flags exactly the live eepers whose rectangle holds `pos`, and changes nothing else |
| Bombs.PutShrinks | pkg/game/bomb.go:158-179 | painting a background cell removes just that cell from the background cells, so the flood fill terminates |
| Bombs.FillAround | pkg/game/bomb.go:173-190 | filling the four neighbours keeps the map's shape, never adds background cells, and queues nothing when it fills nothing |
| Bombs.FloodFill | pkg/game/bomb.go:147-192 | the flood fill keeps the map's shape and leaves the player and eepers alone |
| Bombs.FloodFillPaintsRegion | pkg/game/bomb.go:147-192 | from an in-map start, the fill paints exactly the start and the cells 4-connected to it through background cells, with one new explosion per painted cell, and leaves all other cells unchanged |
| Bombs.FloodFillTurnsOnlyBackground | pkg/game/bomb.go:157-191 | from a background start, a cell changes only if it was background and becomes `fill` |
| Bombs.FilledIsRegion | pkg/game/bomb.go:167-191 | a fill set of connected cells that is closed when the queue is empty is the whole connected region |
| Bombs.RayPathOnCross | pkg/game/bomb.go:89-91 | a ray visits the 1st to 4th cells along its direction, all distinct and on the origin's cross |
| Bombs.Ray | pkg/game/bomb.go:89-117 | one direction of a blast keeps the map rectangular and of the same shape |
| Bombs.Explode | pkg/game/bomb.go:76-121 | a blast keeps the map's shape |
| Bombs.ExplodeKeepsFuses | pkg/game/bomb.go:35-121 | a blast keeps every bomb still to count down inside the map |
| Bombs.ExplodeShape | pkg/game/bomb.go:76-121 | the origin becomes an explosion; any other cell changes only into an explosion, only if it is on the origin's cross or was a barricade, and never if it is a wall or door; a player on the origin is killed, and the player is killed only on the origin or the cross; eepers are only flagged damaged; explosions are only appended, the origin's first |
| Bombs.ExplodeReaches | pkg/game/bomb.go:89-117 | when the first `j` cells of a ray are in the map and clear, all of them end up as explosions |
| Bombs.ExplodeBlastsOrigin | pkg/game/bomb.go:78-86 | the origin cell is an explosion afterwards, a player there is dead, the player is never moved or revived, and no eeper is lost |
| Bombs.SpreadFlood | pkg/game/bomb.go:102-106 | the flood fill of a barricade hit by a ray stays within what a blast may do: only barricade or cross cells become explosions, walls and doors stay, eepers are at most flagged and explosions are only appended |
| Bombs.PlantMovesOneBomb | pkg/game/bomb.go:16-25 | with a bomb in hand: one fewer in hand and one bomb with countdown 3 appended at the player's position; otherwise nothing changes; hand plus map stays constant |
| Bombs.ClearDamaged | pkg/game/bomb.go:30-32 | every eeper's damage flag is cleared and nothing else changes |
| Bombs.CountDownKeeps | pkg/game/bomb.go:35-43 | the countdown loop keeps exactly the bombs that did not reach 0, each ticked once, in order |
| Bombs.CountDown | pkg/game/bomb.go:35-43 | the countdown with its explosions keeps the map rectangular and of the same shape |
| Bombs.PlantedBombFiresOnThirdCountdown | pkg/game/bomb.go:11-43 | a freshly planted bomb goes off on the third `UpdateBombs` |
| Bombs.TickedKeepsUnfired | pkg/game/bomb.go:37-42 | every bomb not reaching 0 is kept, ticked |
| Bombs.TickedComesFromBombs | pkg/game/bomb.go:37-42 | every kept bomb came from a bomb one tick higher and is not at 0 |
| Bombs.CountDownBlastsFuse | pkg/game/bomb.go:39-41 | every bomb reaching 0 leaves an explosion on its cell |
| Bombs.CountDownKillsOnFuse | pkg/game/bomb.go:39-128 | a player standing on a bomb that goes off is dead afterwards |
| Bombs.CountDownWorse | pkg/game/bomb.go:35-43 | the countdown never removes explosion cells, never revives the player and never moves it |
| Bombs.ResolveEach | pkg/game/bomb.go:46-71 | damage is resolved eeper by eeper |
| Bombs.ResolveOutcome | pkg/game/bomb.go:48-70 | a damaged live guard loses 0.45 health and dies exactly at 0; a damaged mother or gnome dies; a father, an undamaged or a dead eeper is unchanged |
| Bombs.BroodsComeFromMothers | pkg/game/bomb.go:56-63 | every spawned guard stands at offset (0,0), (4,0), (0,4) or (4,4) of a damaged live mother |
| Bombs.MothersBrood | pkg/game/bomb.go:56-63 | every damaged live mother spawns a guard at each of the four offsets |
| Bombs.BroodsCount | pkg/game/bomb.go:56-63 | exactly four guards per damaged live mother |
| Bombs.DropsAreGnomesKeys | pkg/game/bomb.go:64-67 | the dropped items are exactly one key at each damaged live gnome's position |
| Bombs.UpdateBombs | pkg/game/bomb.go:28-73 | bomb damage only appends items |
| Bombs.UpdateBombsOutcome | pkg/game/bomb.go:28-73 | a bomb turn keeps exactly the unfired bombs ticked once in order, blasts the cell of every bomb that fired, kills a player standing on one, never revives or moves the player and never loses eepers |
| Levels.ColorTableIsInjective | pkg/game/level.go:34-49 | the fourteen level colours are pairwise distinct, so at most one matches a pixel |
| Levels.ClassOfIsTheMatch | pkg/game/level.go:76-82 | a pixel of some table colour is classified as that cell; any other colour as `LevelNone` |
| Levels.MatchFromFinds | pkg/game/level.go:77-82 | the colour loop from any position finds the table entry of a matching colour, and `LevelNone` when no remaining entry matches |
| Levels.CellOf | pkg/game/level.go:84-126 | walls, doors and barricades decode to themselves and everything else to floor |
| Levels.ItemOf | pkg/game/level.go:93-104 | exactly the checkpoint, bomb refill, bomb slot and key pixels yield an item |
| Levels.EeperOf | pkg/game/level.go:105-116 | exactly the guard, mother and gnome pixels spawn an eeper; a father spawns nothing |
| Levels.DecodedGrid | pkg/game/level.go:64-70 | the decoded map has `height` rows of `width` cells |
| Levels.DecodedCellsAreTerrain | pkg/game/level.go:84-126 | every decoded cell is floor, wall, door or barricade, never none or explosion |
| Levels.ScanIsRowMajor | pkg/game/level.go:71-72 | the scan visits pixels in row-major order |
| Levels.ScanIsSound | pkg/game/level.go:71-74 | every scanned pixel lies inside the image, before the current position, and carries its own classification |
| Levels.ScanIsComplete | pkg/game/level.go:71-72 | the scan visits every pixel before the current one |
| Levels.LevelItems | pkg/game/level.go:93-104 | each item-marker pixel yields exactly one item of its kind with cooldown 0 on a floor cell, nothing else yields items, and items come in scan order |
| Levels.LevelEepers | pkg/game/level.go:105-116 | each guard, mother and gnome pixel spawns one eeper of that kind on a floor cell, nothing else spawns, and eepers come in scan order |
| Levels.PlacedOnLastPlayerPixel | pkg/game/level.go:117-123 | with `updatePlayer`, the player ends on the last player pixel, looking one cell down; otherwise it is unchanged |
| Levels.LastPlayerPixelIsLast | pkg/game/level.go:117-123 | the last player pixel is absent exactly when no pixel is a player pixel, and otherwise is a player pixel with no player pixel after it |
| Levels.ProgressIsScanned | pkg/game/level.go:71-127 | after any prefix of the scan, the decoder's state is the partly decoded map plus the items, eepers and player placement of the pixels scanned so far |
| Levels.ProgressDone | pkg/game/level.go:67-128 | when the loops finish, the map is the decoded map and the items, eepers and player are those of the whole scan |
| Transitions.Started | pkg/game/state.go:151-167 | a loaded player is alive with health 1, one bomb slot, no bombs or keys, and stands on the level's last player pixel if it has one, otherwise where it stood |
| Transitions.LoadLevel | pkg/game/state.go:137-176 | an empty path changes nothing; an error is reported exactly when the file is missing, and then the cleared state remains |
| Transitions.LoadLevelLoads | pkg/game/state.go:143-175 | a successful load installs the decoded map, items and eepers, no bombs, explosions or portals, the path and hub flag, and a checkpoint of the new state |
| Transitions.LoadLevelStarts | pkg/game/state.go:143-175 | after a successful load, restoring the checkpoint gives the freshly loaded player back |
| Turns.MovedKeepsShape | cmd/eepers-go/main.go:157-158 | the player's move keeps the map rectangular and every firing bomb inside it |
| Turns.TickMovesAtMostOneStep | cmd/eepers-go/main.go:157-161 | a whole turn moves the player at most one step in the chosen direction, leaves the unfired bombs ticked once, never revives the player, and sets the turn animation to 1 |
| Menu.MenuState.constructor | pkg/game/menu.go:26-32 | a new menu is closed, on Continue, with four options |
| Menu.MenuState.ToggleMenu | pkg/game/menu.go:35-44 | toggling flips open; opening resets the selection to Continue, closing keeps it |
| Menu.MenuState.OpenMenu | pkg/game/menu.go:47-50 | opening sets open and Continue |
| Menu.MenuState.CloseMenu | pkg/game/menu.go:53-55 | closing only clears open |
| Menu.MenuState.MoveUp | pkg/game/menu.go:58-65 | moves the selection to `Up` of the old one |
| Menu.MenuState.MoveDown | pkg/game/menu.go:82-89 | moves the selection to `Down` of the old one |
| Menu.MenuState.MoveUpInHub | pkg/game/menu.go:68-79 | moves the selection to `UpInHub` of the old one |
| Menu.MenuState.MoveDownInHub | pkg/game/menu.go:92-103 | moves the selection to `DownInHub` of the old one |
| Menu.MovesStayInRange | pkg/game/menu.go:58-89 | up and down keep the selection in [Continue, Quit], wrapping between Continue and Quit |
| Menu.UpUndoesDown | pkg/game/menu.go:58-89 | up undoes down and vice versa, and four downs are the identity |
| Menu.HubMovesSkipExitLevel | pkg/game/menu.go:68-103 | in the hub, moves stay in range and never land on Exit Level |
| Menu.HubMovesCycle | pkg/game/menu.go:68-103 | in the hub, down cycles Continue, Restart, Quit, and up is its inverse on those three |
| Menu.GetOptionText | pkg/game/menu.go:106-119 | an option has a label exactly when it is one of the four options |
| Menu.OptionTextsDistinct | pkg/game/menu.go:106-119 | the four labels are distinct |
| Tutorial.PopupFields | pkg/game/tutorial.go:42-50 | `ShowPopup` sets visible and the label; `HidePopup` clears only visible |
| Tutorial.UpdateInMove | pkg/game/tutorial.go:83-89 | in the move phase, any move learns moving, hides the popup and goes on to waiting for sprint; otherwise the phase stays and the popup shows |
| Tutorial.UpdateWhileWaitingForSprint | pkg/game/tutorial.go:90-95 | waiting for sprint advances exactly when the hurry count is at least 10, and otherwise nothing changes |
| Tutorial.UpdateInSprintAndPlaceBombs | pkg/game/tutorial.go:96-112 | sprint advances exactly when running; place-bombs finishes exactly when a bomb is placed |
| Tutorial.UpdateLeavesSilentPhases | pkg/game/tutorial.go:103-114 | waiting for a bomb and done are left unchanged |
| Tutorial.UpdateAdvancesAtMostOneStep | pkg/game/tutorial.go:82-115 | one update advances at most one phase along the tutorial |
| Tutorial.DoneIsAbsorbing | pkg/game/tutorial.go:113-114 | once done, any sequence of updates leaves the tutorial unchanged |
| Tutorial.TrackMovementSpeedBounds | pkg/game/tutorial.go:119-140 | tracking does nothing outside waiting for sprint, never changes the phase and never makes the hurry count negative; while waiting for sprint it records the step's whole second, and the count rises exactly when `now` is less than 0.2 s past the previous step's whole second |
| Tutorial.Truncate | pkg/game/tutorial.go:134 | Go's `int64` conversion of a float truncates towards zero: the result is within one of the input, on the input's side of zero |
| Tutorial.QuickStepsLateInSecondCountAsSlow | pkg/game/tutorial.go:125-134 | after a step at 5.3 s, which is recorded as second 5, a step at 5.4 s lowers the hurry count |
| Tutorial.FirstStepIsSlow | pkg/game/tutorial.go:125-129 | the first tracked step after a fresh start is measured from the zero Go time and never counts as quick |
| Worlds.WorldConfig.constructor | pkg/game/world.go:11-14 | a configuration holds the given worlds and current world |
| Worlds.WorldConfig.GetCurrentHub | pkg/game/world.go:17-22 | "" for an invalid current world, else that world's hub |
| Worlds.WorldConfig.GetLevel | pkg/game/world.go:25-38 | portal `n` gives level `n - 1` of a valid current world when `1 <= n <= len(levels)`, else "" |
| Worlds.WorldConfig.GetTotalLevelsInCurrentWorld | pkg/game/world.go:53-58 | 0 for an invalid world, else its number of levels |
| Worlds.WorldConfig.GetCurrentWorldName | pkg/game/world.go:61-66 | "" for an invalid world, else its name |
| Worlds.WorldConfig.NextWorld | pkg/game/world.go:69-75 | advances exactly when a next world exists and otherwise changes nothing; the world list is never modified |
| Worlds.WorldConfig.LookupsAgree | pkg/game/world.go:25-58 | `HasLevel(n)` holds exactly when `1 <= n <= GetTotalLevelsInCurrentWorld()`, and then `GetLevel` gives that level, else "" |
| Game.Classify | pkg/game/level.go:76-82 | the colour loop classifies a pixel as `Levels.ClassOf` does |
| Game.State.constructor | pkg/game/state.go:10-28 | a new state is empty: no map, entities or checkpoint, a fresh tutorial, not in the hub |
| Game.State.AllocateItem | pkg/game/state.go:43-49 | appends one item of the given kind and position with cooldown 0 |
| Game.State.SpawnEeper | pkg/game/bomb.go:60-63 | appends one freshly spawned eeper of the given kind at the position |
| Game.State.SaveCheckpoint | pkg/game/state.go:52-87 | the checkpoint becomes a copy of the map, the player's position, keys, bombs and slots, the eepers, the items and the bombs |
| Game.State.RestoreCheckpoint | pkg/game/state.go:90-134 | the map, eepers, items and bombs come back from the checkpoint, the player as `RestoredPlayer`; explosions are cleared and the animation reset |
| Game.State.KillPlayer | pkg/game/player.go:146-153 | the player becomes `Killed(old player, now)` |
| Game.State.PlantBomb | pkg/game/bomb.go:16-25 | the player and bombs become `Plant` of the old ones |
| Game.State.DamageAtPosition | pkg/game/bomb.go:124-137 | the loop computes `DamageAt` on the blast's part of the state |
| Game.State.FloodFill | pkg/game/bomb.go:147-192 | the method computes the `FloodFill` function, the bounds check included |
| Game.State.FillFrom | pkg/game/bomb.go:157-191 | from an in-map start, painting the start and running the queue computes the `FloodFill` function |
| Game.State.FillQueue | pkg/game/bomb.go:168-191 | the queue loop computes `FillLoop` |
| Game.State.FillNeighbours | pkg/game/bomb.go:173-190 | the direction loop computes `FillAround` |
| Game.State.Explode | pkg/game/bomb.go:76-121 | the method computes the `Explode` function |
| Game.State.BlastRay | pkg/game/bomb.go:90-117 | one direction's loop, with its three stops, computes `Ray` |
| Game.State.BlastCell | pkg/game/bomb.go:108-116 | one cell's blast computes `Blasted` |
| Game.State.UpdateBombs | pkg/game/bomb.go:28-73 | the three loops compute the `UpdateBombs` function |
| Game.State.ClearDamageFlags | pkg/game/bomb.go:30-32 | the eepers become `ClearDamaged` of the old ones |
| Game.State.CountDownBombs | pkg/game/bomb.go:35-43 | the backwards loop with in-place removal computes `CountDown` |
| Game.State.TickBomb | pkg/game/bomb.go:36-42 | one iteration keeps the loop invariant relating the state to `CountDown` |
| Game.State.ResolveDamage | pkg/game/bomb.go:46-72 | the eepers become the resolved ones followed by the spawned guards, and the dropped keys are appended to the items |
| Game.State.ResolveEeper | pkg/game/bomb.go:47-71 | one eeper's resolution computes `ResolveAt` |
| Game.State.UpdateExplosions | pkg/game/explosion.go:6-16 | the backwards loop leaves the survivors in order and floors the cells of expired explosions |
| Game.State.TickExplosion | pkg/game/explosion.go:8-14 | one iteration keeps the loop invariant relating the state to `Survivors` and `Expired` |
| Game.State.RemoveDoor | pkg/game/player.go:30-70 | the queue loop turns into floor exactly the door region of the start, whatever the map's direction order |
| Game.State.OpenHead | pkg/game/player.go:36-68 | one iteration keeps the search invariant and makes progress |
| Game.State.VisitDoorNeighbours | pkg/game/player.go:44-67 | queues exactly the unvisited neighbours of the region's kind, keeping the search invariant |
| Game.State.PlayerTurn | pkg/game/player.go:73-138 | the method computes `Players.Turn` on the state |
| Game.State.StepOntoFloor | pkg/game/player.go:85-127 | the floor branch computes `OntoFloor` |
| Game.State.StepIntoDoor | pkg/game/player.go:128-134 | the door branch computes `IntoDoor` |
| Game.State.PickUpItems | pkg/game/player.go:88-117 | the item loop computes `PickUpFrom` |
| Game.State.PickUpItem | pkg/game/player.go:89-116 | one item's pick-up computes `PickUpItem` |
| Game.State.UpdateEepers | pkg/game/eepers.go:14-32 | the loop computes `Eepers.UpdateAll` |
| Game.State.UpdateGuard | pkg/game/eepers.go:34-63 | computes `GuardTurn` for eeper `i` |
| Game.State.GuardMoveOrAttack | pkg/game/eepers.go:44-62 | the move-or-attack part of a guard's turn computes `GuardTurn` |
| Game.State.EeperCanStandHere | pkg/game/eepers.go:65-81 | the loop returns `CanStandHere`: in the map, floor, and outside every other live eeper's rectangle |
| Game.State.ItemsTurn | pkg/game/items.go:4-12 | the items become `Items.Tick` of the old ones |
| Game.State.SpawnPortal | pkg/game/portal.go:17-20 | appends exactly `NewPortal(id, centre)` |
| Game.State.UpdatePortals | pkg/game/portal.go:23-57 | the portals become `Portals.UpdateAll` of the old ones |
| Game.State.GetPortalAtPosition | pkg/game/portal.go:60-67 | the loop returns the index `PortalAt` gives |
| Game.State.ActivatePortal | pkg/game/portal.go:70-77 | no portal, or an activated one: nothing changes; otherwise the portal is marked activated and its level is loaded |
| Game.State.ShowPopup | pkg/game/tutorial.go:42-45 | the tutorial becomes `Shown` |
| Game.State.HidePopup | pkg/game/tutorial.go:48-50 | the tutorial becomes `Hidden` |
| Game.State.UpdateTutorial | pkg/game/tutorial.go:81-116 | the tutorial becomes `Tutorial.Update` of the old one |
| Game.State.TutorialTrackMovementSpeed | pkg/game/tutorial.go:119-140 | at clock reading `now`, the tutorial becomes `TrackMovementSpeed` of the old one |
| Game.State.LoadGameFromImage | pkg/game/level.go:52-131 | a missing file is an error and changes nothing; otherwise the map is the decoded map, the level's items and eepers are appended in scan order and the player is placed |
| Game.State.DecodeImage | pkg/game/level.go:64-128 | the decoder's loops give the decoded map, items, eepers and player placement |
| Game.State.DecodeRows | pkg/game/level.go:71-128 | the row loop reaches the end of the scan |
| Game.State.DecodeRow | pkg/game/level.go:72-127 | the column loop decodes one row |
| Game.State.DecodeAt | pkg/game/level.go:73-126 | one pixel advances the decoder by one step of the scan |
| Game.State.DecodePixel | pkg/game/level.go:84-126 | the switch writes the pixel's cell and appends its item or eeper, or places the player |
| Game.State.LoadLevel | pkg/game/state.go:137-176 | computes `Transitions.LoadLevel` |
| Game.State.ClearLevel | pkg/game/state.go:142-148 | clears bombs, explosions, eepers, items and portals and resets the animation |
| Game.State.EnterLevel | pkg/game/state.go:150-175 | loading into the cleared state computes `Transitions.LoadLevel` |
| Game.State.StartLevel | pkg/game/state.go:156-173 | records the path and hub flag, resets the player's health, death, victory, slots, bombs and keys, and saves a checkpoint |
| Game.State.LoadHub | pkg/game/state.go:179-182 | loads the current world's hub as a hub |
| Game.State.LoadNextLevel | pkg/game/state.go:185-207 | outside the hub, loads the hub; in the hub, advances the world and loads its hub when a next world exists, and otherwise returns false and changes nothing |
| Game.State.RestartFromFirstLevel | pkg/game/state.go:210-221 | resets the tutorial and the world to 0 and loads the first hub |
| Game.State.LoadLevelFromPortal | pkg/game/state.go:224-231 | loads the portal's level of the current world, and changes nothing when there is none |
| Game.State.Tick | cmd/eepers-go/main.go:157-161 | one key press computes `Turns.Tick`: the player's turn, the animation, the items', the eepers' and the bombs' turns, in that order |
| Game.State.MoveTurn | cmd/eepers-go/main.go:157-158 | the player's turn followed by setting the turn animation to 1 computes `Turns.Moved` |
| Game.State.RestOfTurn | cmd/eepers-go/main.go:159-161 | the items', eepers' and bombs' turns in order |
| Game.State.BombsTurn | cmd/eepers-go/main.go:161 | the bombs' turn computes `Turns.BombsTicked` |

## Left out

- Rendering, sound, the camera, the window and input loop of `cmd/eepers-go/main.go`
  outside lines 157-161, the eye animations, `DrawPopup` and `DrawMenu`: these are
  presentation, not simulation.
- `float32` arithmetic: health, times and portal progress are exact `real`s, so rounding
  is not modelled.
- Clock readings (`rl.GetTime`) are the parameter `now`. `PrevStepTimestamp` is kept as
  the whole Unix second it holds (`prevStepSecond`); the calendar of `time.Time` is not
  modelled.
- File opening and image decoding are the parameter `files`, which maps a path to an
  optional image of colours. The 16-bit to 8-bit colour conversion of `level.go:73-74` is
  part of that image.
- Go map iteration order is the parameter `order` for `RemoveDoor`'s four directions. For
  the colour table, the lookup order makes no difference because the colours are distinct.
- Eepers.GuardTurn: the guard is an index into the eeper list, not a Go reference to the
  record. `isPlayerInAttackRange` is the rectangle test `Eeper.Covers`.
- Game.State.UpdateBombs: requires every bomb that goes off to lie inside the map. Out of
  the map, the Go code would index out of range and panic; planted bombs always lie at the
  player's in-map position.
- Game.State.CountDownBombs: the same in-map requirement as `UpdateBombs`.
- Game.State.Explode: requires the origin to lie inside the map, for the same reason.
- Game.State.FloodFill: requires a non-empty rectangular map and `background != fill`.
  The Go code reads `Map[0]`, and with equal cells its loop does not terminate.
- Game.State.RemoveDoor: requires a rectangular map and a direction order containing the
  four directions.
- Game.State.UpdateExplosions: requires every explosion to lie inside the rectangular map.
  An explosion outside it would make the Go loop at `explosion.go:12` index out of range
  and panic. Explosions are only created at in-map cells, by `Explode` at its in-map
  origin and by the bounds-checked rays and flood fill, and no turn changes the map's
  shape, but the model does not carry this as a proved invariant of `Game.State`.
- Game.State.TickExplosion: the same in-map requirement as `UpdateExplosions`.
- Pathfinding.BFS: requires a rectangular map. `bfs.go:40-42` tests every column against
  `len(grid[0])`, so on a ragged map the Go code would index out of range.
- Pathfinding.ShortestPath: the same rectangular-map requirement as `BFS`.
- Levels.Decode: a pixel outside the map would not be written. The decoder's loops only
  visit pixels inside it, so this never happens.
- The player's `EnteringPortal` animation and its activation after a delay are in the main
  loop; only the portal entry at `player.go:119-127` is modelled.
- `SpawnPortal` is modelled, but no caller in the core creates portals.
- The pause menu's `Menu` field of `State`, `ShouldQuit` and `DurationOfLastTurn` are not
  part of the simulation.
- The `Path` field of an eeper is carried and checkpointed but never read by the core.
- `pkg/game/player_turn.go` is an older copy of `PlayerTurn`; the model follows
  `pkg/game/player.go`.
- `LoadColors` (`pkg/game/palette.go`) and the input controller are not part of this model.
