/**
 * The game state of pkg/game/state.go and the methods that change it in place: the
 * bombs and blasts of bomb.go, the explosion timers of explosion.go, the player's turn
 * of player.go, the guards of eepers.go, the item tick of items.go, the portals of
 * portal.go, the tutorial of tutorial.go, the level decoder of level.go and the level
 * transitions of state.go.
 *
 * Each method is proved equal to the function of the module that specifies it
 * (`Bombs`, `Explosions`, `Players`, `Eepers`, `Items`, `Portals`, `Tutorial`,
 * `Levels`, `Checkpoints`), where the properties of the game are proved.
 */
module Game {
  import opened Wrappers
  import opened Geometry
  import opened Entities
  import Tutorial
  import Checkpoints
  import Portals
  import Players
  import Explosions
  import Bombs
  import Items
  import Pathfinding
  import Eepers
  import Levels
  import Worlds
  import Transitions
  import Turns

  /** A player with every field at its zero value, as in a new `State`. */
  function ZeroPlayer(): Player {
    Player(IVector2(0, 0), IVector2(0, 0), IVector2(0, 0), 0, 0, 0, 0.0, false, 0.0, false, 0.0, false, 0.0, 0)
  }

  /** The inner loop over the colour table in `LoadGameFromImage`: the first entry whose colour is `color`. */
  method Classify(color: Levels.Color) returns (levelCell: Levels.LevelCell)
    ensures levelCell == Levels.ClassOf(color)
  {
    var k := 0;
    while k < |Levels.LevelCells|
      invariant 0 <= k <= |Levels.LevelCells|
      invariant Levels.MatchFrom(color, k) == Levels.ClassOf(color)
    {
      var cell := Levels.LevelCells[k];
      var cellColor := Levels.LevelCellColor(cell);
      if cellColor.r == color.r && cellColor.g == color.g && cellColor.b == color.b && cellColor.a == color.a {
        return cell;
      }
      k := k + 1;
    }
    return Levels.LevelNone;
  }

  class State {
    var grid: Grid
    var player: Player
    var items: seq<Item>
    var eepers: seq<Eeper>
    var bombs: seq<Bomb>
    var explosions: seq<Explosion>
    var portals: seq<Portal>
    var turnAnimation: real
    var tutorial: Tutorial.TutorialState
    var checkpoint: Checkpoints.Checkpoint
    var inHub: bool
    var currentLevelPath: string

    /** The worlds and levels, and the current world. */
    const worldConfig: Worlds.WorldConfig
    /** Size and health of freshly spawned eepers. */
    const spawner: Spawner
    /** Opening and decoding a level file: `None` when either fails. */
    const files: Transitions.Files

    /** The maps in play are rectangular. */
    predicate Valid()
      reads this
    {
      Rectangular(grid) && Rectangular(checkpoint.grid)
    }

    /** A new state: everything at its zero value. */
    constructor (worldConfig: Worlds.WorldConfig, spawner: Spawner, files: Transitions.Files)
      ensures Valid()
      ensures grid == [] && player == ZeroPlayer() && items == [] && eepers == [] && bombs == []
      ensures explosions == [] && portals == [] && turnAnimation == 0.0 && tutorial == Tutorial.Fresh()
      ensures checkpoint == Checkpoints.NoCheckpoint() && !inHub && currentLevelPath == ""
      ensures this.worldConfig == worldConfig && this.spawner == spawner && this.files == files
    {
      grid := [];
      player := ZeroPlayer();
      items := [];
      eepers := [];
      bombs := [];
      explosions := [];
      portals := [];
      turnAnimation := 0.0;
      tutorial := Tutorial.Fresh();
      checkpoint := Checkpoints.NoCheckpoint();
      inHub := false;
      currentLevelPath := "";
      this.worldConfig := worldConfig;
      this.spawner := spawner;
      this.files := files;
    }

    // ---------------------------------------------------------------- items, eepers, checkpoints

    /** `AllocateItem`: one more item of `kind` at `position`, with cooldown zero. */
    method AllocateItem(position: IVector2, kind: ItemKind)
      modifies this`items
      ensures items == old(items) + [Item(kind, position, 0)]
    {
      items := items + [Item(kind, position, 0)];
    }

    /** `SpawnGuard`, `SpawnMother` and `SpawnGnome`: one more live eeper of `kind` at `position`. */
    method SpawnEeper(kind: EeperKind, position: IVector2)
      modifies this`eepers
      ensures eepers == old(eepers) + [Spawn(spawner, kind, position)]
    {
      eepers := eepers + [Spawn(spawner, kind, position)];
    }

    /** `SaveCheckpoint`: a snapshot of the map, the player's position and inventory, the eepers, items and bombs. */
    method SaveCheckpoint()
      requires Valid()
      modifies this`checkpoint
      ensures Valid()
      ensures checkpoint == Checkpoints.Capture(grid, player, eepers, items, bombs)
    {
      checkpoint := Checkpoints.Checkpoint(grid, player.position, player.keys, player.bombs, player.bombSlots,
                                           eepers, items, bombs);
    }

    /** `RestoreCheckpoint`: back to the snapshot, alive, with no explosions and no turn animation. */
    method RestoreCheckpoint()
      requires Valid()
      modifies this`grid, this`player, this`eepers, this`items, this`bombs, this`explosions, this`turnAnimation
      ensures Valid()
      ensures grid == checkpoint.grid && eepers == checkpoint.eepers && items == checkpoint.items
      ensures bombs == checkpoint.bombs && explosions == [] && turnAnimation == 0.0
      ensures player == Checkpoints.RestoredPlayer(old(player), checkpoint)
    {
      grid := checkpoint.grid;
      player := player.(position := checkpoint.playerPosition, prevPosition := checkpoint.playerPosition,
                        keys := checkpoint.playerKeys, bombs := checkpoint.playerBombs,
                        bombSlots := checkpoint.playerBombSlots, dead := false, health := 1.0);
      eepers := checkpoint.eepers;
      items := checkpoint.items;
      bombs := checkpoint.bombs;
      explosions := [];
      turnAnimation := 0.0;
    }

    // ---------------------------------------------------------------- bombs

    /** What a blast reads and writes. */
    function Arena(): Bombs.Arena
      reads this
    {
      Bombs.Arena(grid, explosions, player, eepers)
    }

    /** `KillPlayer`, at time `now`. */
    method KillPlayer(now: real)
      modifies this`player
      ensures player == Players.Killed(old(player), now)
    {
      if !player.dead {
        player := player.(health := 0.0, dead := true, deathTime := now);
      }
    }

    /** `PlantBomb`. */
    method PlantBomb()
      modifies this`player, this`bombs
      ensures (player, bombs) == Bombs.Plant(old(player), old(bombs))
    {
      if player.bombs > 0 {
        player := player.(bombs := player.bombs - 1);
        bombs := bombs + [Bomb(player.position, Bombs.BombCountdown)];
      }
    }

    /** `damageAtPosition`, at time `now`. */
    method DamageAtPosition(pos: IVector2, now: real)
      modifies this`player, this`eepers
      ensures Arena() == Bombs.DamageAt(old(Arena()), pos, now)
    {
      if player.position.x == pos.x && player.position.y == pos.y {
        KillPlayer(now);
      }
      for i := 0 to |eepers|
        invariant player == Bombs.DamageAt(old(Arena()), pos, now).player
        invariant |eepers| == |old(eepers)|
        invariant forall j :: 0 <= j < i ==> eepers[j] == Bombs.Flag(old(eepers)[j], pos)
        invariant forall j :: i <= j < |eepers| ==> eepers[j] == old(eepers)[j]
      {
        if !eepers[i].dead && InsideRect(eepers[i].position, eepers[i].size, pos) {
          eepers := eepers[i := eepers[i].(damaged := true)];
        }
      }
      assert eepers == Bombs.Flagged(old(eepers), pos);
    }

    /** `FloodFill`: the map needs a first row for its width, and `background` must differ from `fill`. */
    method FloodFill(start: IVector2, background: Cell, fill: Cell)
      requires Rectangular(grid) && |grid| > 0 && background != fill
      modifies this`grid, this`explosions
      ensures Arena() == Bombs.FloodFill(old(Arena()), start, background, fill)
    {
      var mapWidth, mapHeight := |grid[0]|, |grid|;
      if start.x < 0 || start.x >= mapWidth || start.y < 0 || start.y >= mapHeight {
        return;
      }
      FillFrom(start, background, fill);
    }

    /** `FloodFill` from a start inside the map: fill and blast the start, then run the queue from it. */
    method FillFrom(start: IVector2, background: Cell, fill: Cell)
      requires Rectangular(grid) && WithinMap(grid, start) && background != fill
      modifies this`grid, this`explosions
      ensures Arena() == Bombs.FloodFill(old(Arena()), start, background, fill)
    {
      var queue := [start];
      grid := grid[start.y := grid[start.y][start.x := fill]];
      explosions := explosions + [Explosions.Blast(start)];
      FillQueue(queue, background, fill);
    }

    /** The outer loop of `FloodFill`: take cells off the front of `queue` until it is empty. */
    method FillQueue(queue: seq<IVector2>, background: Cell, fill: Cell)
      requires Rectangular(grid) && |grid| > 0 && background != fill
      modifies this`grid, this`explosions
      ensures (grid, explosions) == Bombs.FillLoop(old(grid), old(explosions), queue, background, fill)
    {
      ghost var filled := Bombs.FillLoop(grid, explosions, queue, background, fill);
      var queue := queue;
      while |queue| > 0
        invariant Rectangular(grid) && |grid| > 0
        invariant Bombs.FillLoop(grid, explosions, queue, background, fill) == filled
        decreases Bombs.CellsOf(grid, background), |queue|
      {
        Bombs.FillLoopStep(grid, explosions, queue, background, fill);
        var current := queue[0];
        queue := FillNeighbours(current, queue[1..], background, fill);
      }
    }

    /** The inner loop of `FloodFill`: fill, queue and blast the `background` neighbours of `current`. */
    method FillNeighbours(current: IVector2, queue: seq<IVector2>, background: Cell, fill: Cell)
      returns (queue': seq<IVector2>)
      requires Rectangular(grid) && |grid| > 0 && background != fill
      modifies this`grid, this`explosions
      ensures (grid, explosions, queue') == Bombs.FillAround(old(grid), old(explosions), current, 0, queue, background, fill)
    {
      var mapWidth, mapHeight := |grid[0]|, |grid|;
      queue' := queue;
      for k := 0 to 4
        invariant Rectangular(grid) && |grid| == mapHeight && |grid[0]| == mapWidth
        invariant Bombs.FillAround(grid, explosions, current, k, queue', background, fill)
                  == Bombs.FillAround(old(grid), old(explosions), current, 0, queue, background, fill)
      {
        var newPos := current.Add(Directions[k]);
        Bombs.FillAroundStep(grid, explosions, current, k, queue', background, fill);
        if newPos.x >= 0 && newPos.x < mapWidth && newPos.y >= 0 && newPos.y < mapHeight {
          if grid[newPos.y][newPos.x] == background {
            grid := grid[newPos.y := grid[newPos.y][newPos.x := fill]];
            queue' := queue' + [newPos];
            explosions := explosions + [Explosions.Blast(newPos)];
          }
        }
      }
    }

    /** `Explode` at `origin`, at time `now`; the origin must lie in the map. */
    method Explode(origin: IVector2, now: real)
      requires Rectangular(grid) && WithinMap(grid, origin)
      modifies this`grid, this`explosions, this`player, this`eepers
      ensures Arena() == Bombs.Explode(old(Arena()), origin, now)
    {
      ghost var target := Bombs.Explode(Arena(), origin, now);
      BlastCell(origin, now);
      for k := 0 to 4
        invariant Rectangular(grid) && |grid| > 0
        invariant Bombs.Rays(Arena(), origin, k, now) == target
      {
        BlastRay(origin, Directions[k], now);
      }
    }

    /** One direction of `Explode`: up to four cells from `origin` along `dir`. */
    method BlastRay(origin: IVector2, dir: IVector2, now: real)
      requires Rectangular(grid) && |grid| > 0
      modifies this`grid, this`explosions, this`player, this`eepers
      ensures Arena() == Bombs.Ray(old(Arena()), origin, dir, now)
    {
      ghost var path := Bombs.RayPath(origin, dir);
      var i := 1;
      while i <= 4
        invariant 1 <= i <= 5
        invariant Rectangular(grid) && |grid| > 0
        invariant Bombs.Walk(Arena(), path, i - 1, now) == Bombs.Walk(old(Arena()), path, 0, now)
      {
        var pos := origin.Add(dir.Mul(i));
        assert pos == path[i - 1];
        var mapWidth, mapHeight := |grid[0]|, |grid|;
        if pos.x < 0 || pos.x >= mapWidth || pos.y < 0 || pos.y >= mapHeight {
          break;
        }
        if grid[pos.y][pos.x] == CellWall || grid[pos.y][pos.x] == CellDoor {
          break;
        }
        if grid[pos.y][pos.x] == CellBarricade {
          FloodFill(pos, CellBarricade, CellExplosion);
          break;
        }
        BlastCell(pos, now);
        i := i + 1;
      }
    }

    /**
     * `UpdateBombs`, at time `now`: clear last turn's damage flags, count every bomb down
     * from the last to the first, blasting and removing those that reach zero, then
     * resolve the damage of the eepers that were there before the blasts. A bomb that
     * goes off must lie on the map, as the blast's first cell write needs.
     */
    method UpdateBombs(now: real)
      requires Rectangular(grid) && Bombs.FusesInMap(grid, bombs)
      modifies this`grid, this`explosions, this`player, this`eepers, this`bombs, this`items
      ensures Rectangular(grid)
      ensures Bombs.Turnout(Arena(), bombs, items) == Bombs.UpdateBombs(old(Arena()), old(bombs), old(items), spawner, now)
    {
      ClearDamageFlags();
      CountDownBombs(now);
      ResolveDamage();
    }

    /** The first loop of `UpdateBombs`: no eeper is flagged as damaged. */
    method ClearDamageFlags()
      modifies this`eepers
      ensures eepers == Bombs.ClearDamaged(old(eepers))
    {
      for i := 0 to |eepers|
        invariant |eepers| == |old(eepers)|
        invariant forall j :: 0 <= j < i ==> eepers[j] == old(eepers)[j].(damaged := false)
        invariant forall j :: i <= j < |eepers| ==> eepers[j] == old(eepers)[j]
      {
        eepers := eepers[i := eepers[i].(damaged := false)];
      }
    }

    /** The countdown loop of `UpdateBombs`, from the last bomb to the first. */
    method CountDownBombs(now: real)
      requires Rectangular(grid) && Bombs.FusesInMap(grid, bombs)
      modifies this`grid, this`explosions, this`player, this`eepers, this`bombs
      ensures Rectangular(grid)
      ensures (Arena(), bombs) == Bombs.CountDown(old(Arena()), old(bombs), |old(bombs)|, [], now)
    {
      ghost var bs0 := bombs;
      ghost var done: seq<Bomb> := [];
      ghost var target := Bombs.CountDown(Arena(), bs0, |bs0|, [], now);
      var i := |bombs| - 1;
      while i >= 0
        invariant -1 <= i < |bs0|
        invariant Rectangular(grid) && Bombs.FusesBelow(grid, bs0, i + 1)
        invariant bombs == bs0[..i + 1] + done
        invariant Bombs.CountDown(Arena(), bs0, i + 1, done, now) == target
      {
        done := TickBomb(i, now, bs0, done, target);
        i := i - 1;
      }
      assert bs0[..0] == [] && bombs == done;
      assert Bombs.CountDown(Arena(), bs0, 0, done, now) == (Arena(), done);
    }

    /** One round of the countdown loop of `UpdateBombs`: bomb `i` ticks, and explodes at zero. */
    method TickBomb(i: int, now: real, ghost bs0: seq<Bomb>, ghost done: seq<Bomb>, ghost target: (Bombs.Arena, seq<Bomb>))
      returns (ghost done': seq<Bomb>)
      requires 0 <= i < |bs0|
      requires Rectangular(grid) && Bombs.FusesBelow(grid, bs0, i + 1)
      requires bombs == bs0[..i + 1] + done
      requires Bombs.CountDown(Arena(), bs0, i + 1, done, now) == target
      modifies this`grid, this`explosions, this`player, this`eepers, this`bombs
      ensures Rectangular(grid) && Bombs.FusesBelow(grid, bs0, i)
      ensures bombs == bs0[..i] + done'
      ensures Bombs.CountDown(Arena(), bs0, i, done', now) == target
    {
      assert bombs[i] == bs0[i] && bombs[..i] == bs0[..i] && bombs[i + 1..] == done;
      var bomb := bombs[i].(countdown := bombs[i].countdown - 1);
      done' := done;
      if bomb.countdown == 0 {
        Explode(bomb.position, now);
        bombs := bombs[..i] + bombs[i + 1..];
      } else {
        bombs := bombs[i := bomb];
        done' := [bomb] + done;
        assert bombs == bs0[..i] + done';
      }
    }

    /**
     * The damage loop of `UpdateBombs`, over the eepers there before it: a hurt guard
     * loses `ExplosionDamage` and dies at zero health or below; a hurt mother dies and
     * four guards spawn at her corners; a hurt gnome dies and drops a key; the father
     * is immune.
     */
    method ResolveDamage()
      modifies this`eepers, this`items
      ensures eepers == Bombs.ResolveEach(old(eepers)) + Bombs.Broods(spawner, old(eepers))
      ensures items == old(items) + Bombs.Drops(old(eepers))
    {
      ghost var es0, items0 := eepers, items;
      Bombs.ResolvingBounds(spawner, es0, items0);
      for i := 0 to |eepers|
        invariant (eepers, items) == Bombs.Resolving(spawner, es0, items0, i)
      {
        Bombs.ResolveStep(spawner, es0, items0, i);
        ResolveEeper(i);
      }
    }

    /** One round of the damage loop of `UpdateBombs`: the eeper at index `i`. */
    method ResolveEeper(i: nat)
      requires i < |eepers|
      modifies this`eepers, this`items
      ensures (eepers, items) == Bombs.ResolveAt(spawner, old(eepers), old(items), i)
    {
      var eeper := eepers[i];
      if !eeper.dead && eeper.damaged {
        match eeper.kind {
          case EeperGuard =>
            var health := eeper.health - Bombs.ExplosionDamage;
            eepers := eepers[i := eeper.(health := health, dead := health <= 0.0)];
            assert eepers + [] == eepers && items + [] == items;
          case EeperMother =>
            var position := eeper.position;
            eepers := eepers[i := eeper.(dead := true)];
            ghost var resolved := eepers;
            SpawnEeper(EeperGuard, IVector2(position.x, position.y));
            SpawnEeper(EeperGuard, IVector2(position.x + 4, position.y));
            SpawnEeper(EeperGuard, IVector2(position.x, position.y + 4));
            SpawnEeper(EeperGuard, IVector2(position.x + 4, position.y + 4));
            assert eepers == resolved + Bombs.Brood(spawner, eeper);
            assert items + [] == items;
          case EeperGnome =>
            eepers := eepers[i := eeper.(dead := true)];
            AllocateItem(eeper.position, ItemKey);
            assert eepers + [] == eepers;
          case EeperFather =>
            assert eepers[i := eeper] + [] == eepers && items + [] == items;
        }
      } else {
        assert eepers[i := eeper] + [] == eepers && items + [] == items;
      }
    }

    // ---------------------------------------------------------------- explosions

    /**
     * `UpdateExplosions`: every timer one lower; from the last explosion to the first,
     * one that runs out is removed and its cell turned back into floor.
     */
    method UpdateExplosions()
      requires Rectangular(grid) && Explosions.InMap(grid, explosions)
      modifies this`grid, this`explosions
      ensures explosions == Explosions.Survivors(old(explosions))
      ensures grid == Paint(old(grid), Explosions.Expired(old(explosions)), CellFloor)
    {
      ghost var e0, g0 := explosions, grid;
      PaintNothing(g0, CellFloor);
      assert e0[|e0|..] == [] && Explosions.Expired([]) == {};
      var i := |explosions| - 1;
      while i >= 0
        invariant -1 <= i < |e0|
        invariant explosions == e0[..i + 1] + Explosions.Survivors(e0[i + 1..])
        invariant grid == Paint(g0, Explosions.Expired(e0[i + 1..]), CellFloor)
      {
        TickExplosion(i, e0, g0);
        i := i - 1;
      }
      assert e0[..0] == [] && e0[0..] == e0;
    }

    /** One round of the loop of `UpdateExplosions`: explosion `i` ticks, and goes if its time is up. */
    method TickExplosion(i: int, ghost e0: seq<Explosion>, ghost g0: Grid)
      requires 0 <= i < |e0| && Rectangular(g0) && Explosions.InMap(g0, e0)
      requires explosions == e0[..i + 1] + Explosions.Survivors(e0[i + 1..])
      requires grid == Paint(g0, Explosions.Expired(e0[i + 1..]), CellFloor)
      modifies this`grid, this`explosions
      ensures explosions == e0[..i] + Explosions.Survivors(e0[i..])
      ensures grid == Paint(g0, Explosions.Expired(e0[i..]), CellFloor)
    {
      ghost var cleared := Explosions.Expired(e0[i + 1..]);
      Explosions.SurvivorsOfSuffix(e0, i);
      Explosions.ExpiredOfSuffix(e0, i);
      PaintThenPut(g0, cleared, CellFloor, e0[i].position);
      ghost var rest := Explosions.Survivors(e0[i + 1..]);
      assert e0[..i + 1] == e0[..i] + [e0[i]];
      assert explosions[..i] == e0[..i] && explosions[i] == e0[i] && explosions[i + 1..] == rest;
      var explosion := explosions[i].(timer := explosions[i].timer - 1);
      if explosion.timer <= 0 {
        grid := grid[explosion.position.y := grid[explosion.position.y][explosion.position.x := CellFloor]];
        assert grid == Put(Paint(g0, cleared, CellFloor), e0[i].position, CellFloor);
        explosions := explosions[..i] + explosions[i + 1..];
        assert explosions == e0[..i] + rest;
      } else {
        assert Explosions.Expired(e0[i..]) == cleared;
        explosions := explosions[i := explosion];
        assert explosions == e0[..i] + ([explosion] + rest);
      }
    }

    /** One cell of a blast: an explosion there, the cell turned into one, and damage at it. */
    method BlastCell(pos: IVector2, now: real)
      requires Rectangular(grid) && WithinMap(grid, pos)
      modifies this`grid, this`explosions, this`player, this`eepers
      ensures Arena() == Bombs.Blasted(old(Arena()), pos, now)
    {
      explosions := explosions + [Explosions.Blast(pos)];
      grid := grid[pos.y := grid[pos.y][pos.x := CellExplosion]];
      DamageAtPosition(pos, now);
    }

    // ---------------------------------------------------------------- the player

    /**
     * `RemoveDoor` from `startPos`: the door or barricade region of the start, 8-connected
     * through cells of the start's kind, becomes floor; a start that is neither changes
     * nothing. `order` is the order in which the four edge steps are tried, which the
     * source leaves to its map iteration.
     */
    method RemoveDoor(startPos: IVector2, order: seq<IVector2>)
      requires Rectangular(grid) && Players.IsCardinalOrder(order)
      modifies this`grid
      ensures Rectangular(grid)
      ensures grid == Players.Opened(old(grid), startPos)
    {
      ghost var m := grid;
      ghost var done: set<IVector2> := {};
      PaintNothing(m, CellFloor);
      Players.RemovingStarts(m, startPos);
      var q := [startPos];
      var visited := {startPos};
      while |q| > 0
        invariant Rectangular(grid) && grid == Paint(m, done, CellFloor)
        invariant Players.Removing(m, startPos, q, visited, done)
        decreases (Cells(m) + {startPos}) - visited, |q|
      {
        q, visited, done := OpenHead(q, visited, order, m, startPos, done);
      }
      Players.RemovingEnds(m, startPos, visited, done);
    }

    /**
     * One round of the loop of `RemoveDoor`: the head of the queue is opened when it is
     * still a door or a barricade, and then its unvisited neighbours of the region's kind
     * are queued.
     */
    method OpenHead(q: seq<IVector2>, visited: set<IVector2>, order: seq<IVector2>, ghost m: Grid, ghost startPos: IVector2,
                    ghost done: set<IVector2>)
      returns (q': seq<IVector2>, visited': set<IVector2>, ghost done': set<IVector2>)
      requires Rectangular(m) && Players.IsCardinalOrder(order) && |q| > 0
      requires Rectangular(grid) && grid == Paint(m, done, CellFloor)
      requires Players.Removing(m, startPos, q, visited, done)
      modifies this`grid
      ensures Rectangular(grid) && grid == Paint(m, done', CellFloor)
      ensures Players.Removing(m, startPos, q', visited', done')
      ensures visited <= visited' && visited' <= Cells(m) + {startPos} && (visited' == visited ==> |q'| < |q|)
    {
      ghost var openable := WithinMap(m, startPos) && Players.Openable(At(m, startPos));
      var curr := q[0];
      if openable {
        Players.DoorSearchStep(m, startPos, q, visited, done, grid);
      } else {
        assert q[0] in q;
        if WithinMap(m, curr) {
          PaintAt(m, done, CellFloor, curr);
        }
        assert !(WithinMap(grid, curr) && Players.Openable(grid[curr.y][curr.x]));
        assert forall v :: v in q[1..] ==> v in q;
      }
      q', visited', done' := q[1..], visited, done;
      if WithinMap(grid, curr) && (grid[curr.y][curr.x] == CellDoor || grid[curr.y][curr.x] == CellBarricade) {
        var isBarricade := grid[curr.y][curr.x] == CellBarricade;
        PaintThenPut(m, done, CellFloor, curr);
        grid := grid[curr.y := grid[curr.y][curr.x := CellFloor]];
        done' := done + {curr};
        q', visited' := VisitDoorNeighbours(curr, order, isBarricade, q', visited', m, startPos, done');
        q', visited' := VisitDoorNeighbours(curr, Players.Diagonals, isBarricade, q', visited', m, startPos, done');
        Players.DoorClosedGrows(m, startPos, done, visited, visited', curr, order);
      }
    }

    /** What a player turn reads and writes. */
    function Scene(): Players.Scene
      reads this
    {
      Players.Scene(grid, player, items, eepers, bombs, portals, tutorial, checkpoint)
    }

    /** What the item loop of a floor step reads and writes. */
    function Walk(): Players.Walk
      reads this
    {
      Players.Walk(player, items, tutorial, checkpoint)
    }

    /**
     * `PlayerTurn` in direction `dir` at time `now`: see `Players.Turn`. `order` is the
     * order in which an opened door region tries its edge steps.
     */
    method PlayerTurn(dir: Players.Direction, now: real, order: seq<IVector2>)
      requires Valid() && Players.IsCardinalOrder(order)
      modifies this`grid, this`player, this`items, this`tutorial, this`checkpoint
      ensures Valid()
      ensures Scene() == Players.Turn(old(Scene()), dir, now)
    {
      ghost var s := Scene();
      player := player.(prevPosition := player.position);
      var newPos := player.position.Add(Players.Vector(dir));
      player := player.(eyesTarget := newPos.Add(Players.Vector(dir)));
      if !WithinMap(grid, newPos) {
        Players.TurnStays(s, dir, now);
        return;
      }
      match grid[newPos.y][newPos.x] {
        case CellFloor => StepOntoFloor(newPos, dir, now, s);
        case CellDoor => StepIntoDoor(newPos, dir, now, order, s);
        case _ => Players.TurnStays(s, dir, now);
      }
    }

    /** The floor case of `PlayerTurn`: step, handle the items there, and start entering an open portal there. */
    method StepOntoFloor(newPos: IVector2, dir: Players.Direction, now: real, ghost s: Players.Scene)
      requires Valid() && Rectangular(s.grid) && Scene() == s.(player := Players.Looking(s.player, dir))
      requires newPos == s.player.position.Add(Players.Vector(dir))
      requires WithinMap(s.grid, newPos) && At(s.grid, newPos) == CellFloor
      modifies this`player, this`items, this`tutorial, this`checkpoint
      ensures Valid()
      ensures Scene() == Players.OntoFloor(s, dir, now)
    {
      player := player.(position := newPos);
      PickUpItems(newPos);
      var k := GetPortalAtPosition(newPos);
      if k.Some? && portals[k.value].openProgress > Players.PortalEnterProgress {
        player := player.(enteringPortal := true, portalEntryTime := now, portalToActivate := portals[k.value].id);
      }
    }

    /** The door case of `PlayerTurn`: with a key, spend it, open the door region and step in. */
    method StepIntoDoor(newPos: IVector2, dir: Players.Direction, now: real, order: seq<IVector2>, ghost s: Players.Scene)
      requires Valid() && Players.IsCardinalOrder(order)
      requires Rectangular(s.grid) && Scene() == s.(player := Players.Looking(s.player, dir))
      requires newPos == s.player.position.Add(Players.Vector(dir))
      requires WithinMap(s.grid, newPos) && At(s.grid, newPos) == CellDoor
      modifies this`player, this`grid
      ensures Valid()
      ensures Scene() == Players.IntoDoor(s, dir)
    {
      ghost var p1 := Players.Looking(s.player, dir);
      if player.keys > 0 {
        player := player.(keys := player.keys - 1);
        RemoveDoor(newPos, order);
        player := player.(position := newPos);
        assert player == p1.(keys := p1.keys - 1, position := newPos);
        assert grid == Players.Opened(s.grid, newPos);
        assert Scene() == s.(player := p1.(keys := p1.keys - 1, position := newPos), grid := Players.Opened(s.grid, newPos));
      }
    }

    /** The item loop of a floor step onto `pos`: every item there is handled, in order. */
    method PickUpItems(pos: IVector2)
      requires Valid()
      modifies this`player, this`items, this`tutorial, this`checkpoint
      ensures Valid()
      ensures Walk() == Players.PickUpFrom(old(Walk()), 0, pos, grid, eepers, bombs)
    {
      for i := 0 to |items|
        invariant Valid() && |items| == |old(items)|
        invariant Players.PickUpFrom(Walk(), i, pos, grid, eepers, bombs)
                  == Players.PickUpFrom(old(Walk()), 0, pos, grid, eepers, bombs)
      {
        PickUpItem(i, pos);
      }
    }

    /** The body of the item loop for item `i`: see `Players.PickUpItem`. */
    method PickUpItem(i: nat, pos: IVector2)
      requires Valid() && i < |items|
      modifies this`player, this`items, this`tutorial, this`checkpoint
      ensures Valid()
      ensures Walk() == Players.PickUpItem(old(Walk()), i, pos, grid, eepers, bombs)
    {
      var item := items[i];
      if item.position != pos {
        return;
      }
      match item.kind {
        case ItemKey =>
          player := player.(keys := player.keys + 1);
          items := items[i := item.(kind := ItemNone)];
        case ItemBombRefill =>
          if player.bombs < player.bombSlots && item.cooldown <= 0 {
            if player.bombs == 0 && tutorial.phase == Tutorial.TutorialWaitingForBombPick {
              tutorial := tutorial.(phase := Tutorial.TutorialPlaceBombs);
            }
            player := player.(bombs := player.bombs + 1);
            items := items[i := item.(cooldown := Players.BombGeneratorCooldown)];
          }
        case ItemBombSlot =>
          player := player.(bombSlots := player.bombSlots + 1);
          items := items[i := item.(kind := ItemNone)];
        case ItemCheckpoint =>
          items := items[i := item.(kind := ItemNone)];
          SaveCheckpoint();
        case ItemNone =>
      }
    }

    /** The neighbour loops of `RemoveDoor` around `curr`, one per step of `steps`. */
    method VisitDoorNeighbours(curr: IVector2, steps: seq<IVector2>, isBarricade: bool, q: seq<IVector2>,
                               visited: set<IVector2>, ghost m: Grid, ghost start: IVector2, ghost done: set<IVector2>)
      returns (q': seq<IVector2>, visited': set<IVector2>)
      requires Rectangular(m) && grid == Paint(m, done, CellFloor)
      requires Players.DoorSearch(m, start, q, visited, done) && curr in done
      requires forall d :: d in steps ==> d in Players.EightSteps
      requires isBarricade <==> Players.RegionKind(m, start) == CellBarricade
      ensures Players.DoorSearch(m, start, q', visited', done)
      ensures visited <= visited' && (visited' == visited ==> q' == q)
      ensures Players.NeighboursVisited(m, start, curr, steps, visited')
    {
      q', visited' := q, visited;
      for k := 0 to |steps|
        invariant Players.DoorSearch(m, start, q', visited', done)
        invariant visited <= visited' && (visited' == visited ==> q' == q)
        invariant Players.NeighboursVisited(m, start, curr, steps[..k], visited')
      {
        var next := curr.Add(steps[k]);
        ghost var before := visited';
        if next !in visited' {
          Players.UnvisitedTest(m, start, q', visited', done, grid, next, isBarricade);
          if WithinMap(grid, next) && ((isBarricade && grid[next.y][next.x] == CellBarricade)
                                       || (!isBarricade && grid[next.y][next.x] == CellDoor)) {
            Players.DoorSearchVisits(m, start, q', visited', done, curr, steps[k]);
            q' := q' + [next];
            visited' := visited' + {next};
          }
        }
        Players.NeighboursVisitedStep(m, start, curr, steps, k, before, visited');
      }
      assert steps[..|steps|] == steps;
    }

    // ---------------------------------------------------------------- eepers

    /** What the eepers' turn reads and writes. */
    function Pack(): Eepers.Pack
      reads this
    {
      Eepers.Pack(player, eepers)
    }

    /** `UpdateEepers` at time `now`: every live guard takes its turn, in order; see `Eepers.UpdateAll`. */
    method UpdateEepers(now: real)
      requires Valid()
      modifies this`player, this`eepers
      ensures Valid()
      ensures Pack() == Eepers.UpdateAll(grid, old(Pack()), now)
    {
      for i := 0 to |eepers|
        invariant |eepers| == |old(eepers)|
        invariant Eepers.UpdateFrom(grid, Pack(), i, now) == Eepers.UpdateAll(grid, old(Pack()), now)
      {
        if !eepers[i].dead && eepers[i].kind == EeperGuard {
          UpdateGuard(i, now);
        }
      }
    }

    /** `updateGuard` for eeper `i` at time `now`: see `Eepers.GuardTurn`. */
    method UpdateGuard(i: nat, now: real)
      requires Valid() && i < |eepers|
      modifies this`player, this`eepers
      ensures Pack() == Eepers.GuardTurn(grid, old(Pack()), i, now)
    {
      if eepers[i].health <= 0.0 {
        eepers := eepers[i := eepers[i].(dead := true)];
        return;
      }
      ghost var pk := Pack();
      if eepers[i].attackCooldown > 0 {
        eepers := eepers[i := eepers[i].(attackCooldown := eepers[i].attackCooldown - 1)];
      }
      var path := Pathfinding.BFS(grid, Eepers.ToPoint(eepers[i].position), Eepers.ToPoint(player.position));
      GuardMoveOrAttack(i, path, now, pk);
    }

    /** The rest of `updateGuard` once the cooldown is counted down and the path to the player found. */
    method GuardMoveOrAttack(i: nat, path: Option<seq<Pathfinding.Point>>, now: real, ghost pk: Eepers.Pack)
      requires Valid() && i < |pk.eepers| && pk.eepers[i].health > 0.0 && player == pk.player
      requires eepers == pk.eepers[i := pk.eepers[i].(attackCooldown := Eepers.CountedDown(pk.eepers[i].attackCooldown))]
      requires path == Pathfinding.ShortestPath(grid, Eepers.ToPoint(pk.eepers[i].position), Eepers.ToPoint(pk.player.position))
      modifies this`player, this`eepers
      ensures Pack() == Eepers.GuardTurn(grid, pk, i, now)
    {
      if path.Some? && |path.value| > 1 {
        var nextPos := path.value[1];
        var canStand := EeperCanStandHere(IVector2(nextPos.x, nextPos.y), i);
        Eepers.CanStandHereIgnoresSelf(grid, pk.eepers, i, eepers[i], IVector2(nextPos.x, nextPos.y));
        if canStand {
          eepers := eepers[i := eepers[i].(prevPosition := eepers[i].position, position := IVector2(nextPos.x, nextPos.y))];
        }
      } else if eepers[i].attackCooldown == 0 {
        if eepers[i].Covers(player.position) {
          player := player.(health := player.health - Eepers.GuardDamage);
          if player.health <= 0.0 {
            KillPlayer(now);
          }
          eepers := eepers[i := eepers[i].(attackCooldown := Eepers.GuardAttackCooldown)];
        }
      }
    }

    /** `eeperCanStandHere` for eeper `i`: see `Eepers.CanStandHere`. */
    method EeperCanStandHere(pos: IVector2, i: nat) returns (canStand: bool)
      requires Valid()
      ensures canStand == Eepers.CanStandHere(grid, eepers, i, pos)
    {
      if !WithinMap(grid, pos) || grid[pos.y][pos.x] != CellFloor {
        return false;
      }
      for j := 0 to |eepers|
        invariant forall k :: 0 <= k < j && k != i && !eepers[k].dead ==> !eepers[k].Covers(pos)
      {
        if j != i && !eepers[j].dead {
          if pos.x >= eepers[j].position.x && pos.x < eepers[j].position.x + eepers[j].size.x
             && pos.y >= eepers[j].position.y && pos.y < eepers[j].position.y + eepers[j].size.y {
            return false;
          }
        }
      }
      return true;
    }

    // ---------------------------------------------------------------- the turn

    /**
     * A move in direction `dir` at time `now` in the game loop: the player's turn, the
     * turn animation restarted, the items' turn, the eepers' turn and the bombs' turn;
     * see `Turns.Tick`.
     */
    method Tick(dir: Players.Direction, now: real, order: seq<IVector2>)
      requires Valid() && Players.IsCardinalOrder(order) && Bombs.FusesInMap(grid, bombs)
      modifies this`grid, this`player, this`items, this`eepers, this`bombs, this`explosions
      modifies this`turnAnimation, this`tutorial, this`checkpoint
      ensures Valid()
      ensures Snapshot() == Turns.Tick(old(Snapshot()), spawner, dir, now)
    {
      Turns.MovedKeepsShape(Snapshot(), dir, now);
      MoveTurn(dir, now, order);
      RestOfTurn(now);
    }

    /** The first half of a move: the player's turn and the turn animation restarted. */
    method MoveTurn(dir: Players.Direction, now: real, order: seq<IVector2>)
      requires Valid() && Players.IsCardinalOrder(order)
      modifies this`grid, this`player, this`items, this`turnAnimation, this`tutorial, this`checkpoint
      ensures Valid()
      ensures Snapshot() == Turns.Moved(old(Snapshot()), dir, now)
    {
      PlayerTurn(dir, now, order);
      turnAnimation := 1.0;
    }

    /** The second half of a move: the items', the eepers' and the bombs' turns. */
    method RestOfTurn(now: real)
      requires Valid() && Bombs.FusesInMap(grid, bombs)
      modifies this`grid, this`player, this`items, this`eepers, this`bombs, this`explosions
      ensures Valid()
      ensures Snapshot() == Turns.BombsTicked(Turns.EepersMoved(Turns.ItemsTicked(old(Snapshot())), now), spawner, now)
    {
      ghost var s0 := Snapshot();
      ItemsTurn();
      assert Snapshot() == Turns.ItemsTicked(s0);
      UpdateEepers(now);
      assert Snapshot() == Turns.EepersMoved(Turns.ItemsTicked(s0), now);
      BombsTurn(now);
    }

    /** `UpdateBombs`, seen as a step of the whole game state. */
    method BombsTurn(now: real)
      requires Valid() && Bombs.FusesInMap(grid, bombs)
      modifies this`grid, this`player, this`items, this`eepers, this`bombs, this`explosions
      ensures Valid()
      ensures Snapshot() == Turns.BombsTicked(old(Snapshot()), spawner, now)
    {
      ghost var t := Bombs.UpdateBombs(Arena(), bombs, items, spawner, now);
      Turns.BombsTickedIs(Snapshot(), spawner, now, t);
      UpdateBombs(now);
    }

    // ---------------------------------------------------------------- items and portals

    /** `ItemsTurn`: every positive cooldown one lower. */
    method ItemsTurn()
      modifies this`items
      ensures items == Items.Tick(old(items))
    {
      for i := 0 to |items|
        invariant |items| == |old(items)|
        invariant forall j :: 0 <= j < i ==> items[j] == Items.TickItem(old(items)[j])
        invariant forall j :: i <= j < |items| ==> items[j] == old(items)[j]
      {
        if items[i].cooldown > 0 {
          items := items[i := items[i].(cooldown := items[i].cooldown - 1)];
        }
      }
    }

    /** `SpawnPortal`: one more portal, closed and not activated, with its 3x3 footprint. */
    method SpawnPortal(centerPos: IVector2, portalId: int)
      modifies this`portals
      ensures portals == old(portals) + [Portal(portalId, centerPos, Footprint(centerPos), 0.0, false)]
    {
      var portal := NewPortal(portalId, centerPos);
      portals := portals + [portal];
    }

    /** `UpdatePortals`: each portal's opening animation one step towards open near the player, towards closed elsewhere. */
    method UpdatePortals()
      modifies this`portals
      ensures portals == Portals.UpdateAll(old(portals), player.position)
    {
      for i := 0 to |portals|
        invariant |portals| == |old(portals)|
        invariant forall j :: 0 <= j < i ==> portals[j] == Portals.Progressed(old(portals)[j], player.position)
        invariant forall j :: i <= j < |portals| ==> portals[j] == old(portals)[j]
      {
        var portal := portals[i];
        var distance := portal.DistanceToPlayer(player.position);
        if distance < Portals.PortalOpenDistance {
          portal := portal.(openProgress := portal.openProgress + Portals.PortalOpenSpeed);
          if portal.openProgress > 1.0 {
            portal := portal.(openProgress := 1.0);
          }
        } else {
          portal := portal.(openProgress := portal.openProgress - Portals.PortalCloseSpeed);
          if portal.openProgress < 0.0 {
            portal := portal.(openProgress := 0.0);
          }
        }
        portals := portals[i := portal];
      }
    }

    /** `GetPortalAtPosition`: the index of the first portal whose footprint holds `pos`, or `None`. */
    method GetPortalAtPosition(pos: IVector2) returns (found: Option<nat>)
      ensures found == Portals.PortalAt(portals, pos)
    {
      for i := 0 to |portals|
        invariant Portals.PortalAtFrom(portals, pos, i) == Portals.PortalAt(portals, pos)
      {
        var contains := portals[i].ContainsPosition(pos);
        if contains {
          return Some(i);
        }
      }
      return None;
    }

    /**
     * `ActivatePortal` for the portal at index `k` (`None` for no portal): an activated
     * portal stays activated and does nothing more; otherwise it is marked activated and
     * the level behind its number is loaded.
     */
    method ActivatePortal(k: Option<nat>) returns (err: bool)
      requires Valid() && (k.Some? ==> k.value < |portals|)
      modifies this`grid, this`player, this`items, this`eepers, this`bombs, this`explosions, this`portals
      modifies this`turnAnimation, this`checkpoint, this`inHub, this`currentLevelPath
      ensures Valid()
      ensures k.None? || old(portals)[k.value].isActivated ==> Snapshot() == old(Snapshot()) && !err
      ensures k.Some? && !old(portals)[k.value].isActivated ==>
                var marked := old(portals)[k.value := old(portals)[k.value].(isActivated := true)];
                (Snapshot(), err) == Transitions.LoadLevel(old(Snapshot()).(portals := marked), files, spawner,
                                                           worldConfig.GetLevel(old(portals)[k.value].id), false)
    {
      if k.None? || portals[k.value].isActivated {
        return false;
      }
      portals := portals[k.value := portals[k.value].(isActivated := true)];
      err := LoadLevelFromPortal(portals[k.value].id);
    }

    // ---------------------------------------------------------------- tutorial

    /** `ShowPopup`. */
    method ShowPopup(text: string)
      modifies this`tutorial
      ensures tutorial == Tutorial.Shown(old(tutorial), text)
    {
      tutorial := tutorial.(popup := tutorial.popup.(visible := true, message := text));
    }

    /** `HidePopup`. */
    method HidePopup()
      modifies this`tutorial
      ensures tutorial == Tutorial.Hidden(old(tutorial))
    {
      tutorial := tutorial.(popup := tutorial.popup.(visible := false));
    }

    /** `UpdateTutorial`, for one frame of input. */
    method UpdateTutorial(input: Tutorial.InputState)
      modifies this`tutorial
      ensures tutorial == Tutorial.Update(old(tutorial), input)
    {
      match tutorial.phase
      case TutorialMove =>
        ShowPopup(Tutorial.MoveLabel);
        if input.moveRight || input.moveLeft || input.moveUp || input.moveDown {
          tutorial := tutorial.(knowsHowToMove := true);
          HidePopup();
          tutorial := tutorial.(phase := Tutorial.TutorialWaitingForSprint);
        }
      case TutorialWaitingForSprint =>
        if tutorial.hurryCount >= 10 {
          tutorial := tutorial.(phase := Tutorial.TutorialSprint);
        }
      case TutorialSprint =>
        ShowPopup(Tutorial.SprintLabel);
        if input.isRunning {
          tutorial := tutorial.(knowsHowToSprint := true);
          HidePopup();
          tutorial := tutorial.(phase := Tutorial.TutorialWaitingForBombPick);
        }
      case TutorialWaitingForBombPick =>
      case TutorialPlaceBombs =>
        ShowPopup(Tutorial.PlaceBombsLabel);
        if input.placeBomb {
          tutorial := tutorial.(knowsHowToPlaceBombs := true);
          HidePopup();
          tutorial := tutorial.(phase := Tutorial.TutorialDone);
        }
      case TutorialDone =>
    }

    /**
     * `TutorialTrackMovementSpeed` at clock reading `now`: the step is quick when `now` is
     * less than 0.2 seconds past the whole second of the previous step, which is all the
     * Go code keeps of it.
     */
    method TutorialTrackMovementSpeed(now: real, isRunning: bool)
      modifies this`tutorial
      ensures tutorial == Tutorial.TrackMovementSpeed(old(tutorial), now, isRunning)
    {
      if tutorial.phase != Tutorial.TutorialWaitingForSprint {
        return;
      }
      var deltaTime := now - tutorial.prevStepSecond as real;
      if deltaTime < Tutorial.QuickStep {
        tutorial := tutorial.(hurryCount := tutorial.hurryCount + 1);
      } else if tutorial.hurryCount > 0 {
        tutorial := tutorial.(hurryCount := tutorial.hurryCount - 1);
      }
      tutorial := tutorial.(prevStepSecond := Tutorial.Truncate(now));
      if isRunning {
        tutorial := tutorial.(knowsHowToSprint := true);
      }
    }

    // ---------------------------------------------------------------- levels

    /** The part of the state the level transitions read and write. */
    function Snapshot(): Transitions.Play
      reads this
    {
      Transitions.Play(grid, player, items, eepers, bombs, explosions, portals, turnAnimation, tutorial, checkpoint,
                       inHub, currentLevelPath)
    }

    /**
     * `LoadGameFromImage` for the file at `path`: `err` when it cannot be opened or
     * decoded, and then nothing has changed; otherwise the map is the decoded level,
     * the level's items and eepers are appended in scan order, and, with `updatePlayer`,
     * the player stands on the last player pixel.
     */
    method LoadGameFromImage(path: string, updatePlayer: bool) returns (err: bool)
      modifies this`grid, this`items, this`eepers, this`player
      ensures err <==> files(path).None?
      ensures err ==> grid == old(grid) && items == old(items) && eepers == old(eepers) && player == old(player)
      ensures !err ==>
                var img := files(path).value;
                && grid == Levels.DecodedGrid(img)
                && items == old(items) + Levels.ItemsOf(Levels.FullScan(img))
                && eepers == old(eepers) + Levels.EepersOf(spawner, Levels.FullScan(img))
                && player == Levels.Placed(old(player), Levels.FullScan(img), updatePlayer)
    {
      if files(path).None? {
        return true;
      }
      var img := files(path).value;
      DecodeImage(img, updatePlayer);
      return false;
    }

    /** The two loops of `LoadGameFromImage` over the pixels of `img`, row by row. */
    method DecodeImage(img: Levels.Image, updatePlayer: bool)
      modifies this`grid, this`items, this`eepers, this`player
      ensures Loaded() == Levels.Loading(Levels.DecodedGrid(img), old(items) + Levels.ItemsOf(Levels.FullScan(img)),
                                         old(eepers) + Levels.EepersOf(spawner, Levels.FullScan(img)),
                                         Levels.Placed(old(player), Levels.FullScan(img), updatePlayer))
    {
      grid := seq(img.height, _ => seq(img.width, _ => CellNone));
      Levels.PartialStart(img, grid);
      ghost var start := Levels.Loading(grid, items, eepers, player);
      DecodeRows(img, updatePlayer, start);
      Levels.ProgressDone(img, spawner, start, updatePlayer);
    }

    /** The outer loop of `LoadGameFromImage`, over the rows of `img`. */
    method DecodeRows(img: Levels.Image, updatePlayer: bool, ghost start: Levels.Loading)
      requires Loaded() == Levels.Progress(img, spawner, start, updatePlayer, 0, 0)
      modifies this`grid, this`items, this`eepers, this`player
      ensures Loaded() == Levels.Progress(img, spawner, start, updatePlayer, img.height, 0)
    {
      for y := 0 to img.height
        invariant Loaded() == Levels.Progress(img, spawner, start, updatePlayer, y, 0)
      {
        DecodeRow(img, y, updatePlayer, start);
        Levels.ProgressNextRow(img, spawner, start, updatePlayer, y);
      }
    }

    /** What the level decoder updates. */
    function Loaded(): Levels.Loading
      reads this
    {
      Levels.Loading(grid, items, eepers, player)
    }

    /** One row of the loop of `LoadGameFromImage`, from the left. */
    method DecodeRow(img: Levels.Image, y: nat, updatePlayer: bool, ghost start: Levels.Loading)
      requires y < img.height
      requires Loaded() == Levels.Progress(img, spawner, start, updatePlayer, y, 0)
      modifies this`grid, this`items, this`eepers, this`player
      ensures Loaded() == Levels.Progress(img, spawner, start, updatePlayer, y, img.width)
    {
      for x := 0 to img.width
        invariant Loaded() == Levels.Progress(img, spawner, start, updatePlayer, y, x)
      {
        DecodeAt(img, x, y, updatePlayer, start);
      }
    }

    /** The body of the inner loop of `LoadGameFromImage`: classify pixel `(x, y)` and decode it. */
    method DecodeAt(img: Levels.Image, x: nat, y: nat, updatePlayer: bool, ghost start: Levels.Loading)
      requires y < img.height && x < img.width
      requires Loaded() == Levels.Progress(img, spawner, start, updatePlayer, y, x)
      modifies this`grid, this`items, this`eepers, this`player
      ensures Loaded() == Levels.Progress(img, spawner, start, updatePlayer, y, x + 1)
    {
      var levelCell := Classify(img.at(x, y));
      Levels.ProgressIsScanned(img, spawner, start, updatePlayer, y, x);
      DecodePixel(x, y, levelCell, updatePlayer);
    }

    /** The `switch` of `LoadGameFromImage` for the pixel at `(x, y)` that stands for `levelCell`. */
    method DecodePixel(x: nat, y: nat, levelCell: Levels.LevelCell, updatePlayer: bool)
      requires y < |grid| && x < |grid[y]|
      modifies this`grid, this`items, this`eepers, this`player
      ensures Loaded() == Levels.Decode(old(Loaded()), spawner, x, y, levelCell, updatePlayer)
    {
      var cell := CellFloor;
      match levelCell {
        case LevelWall => cell := CellWall;
        case LevelDoor => cell := CellDoor;
        case LevelBarricade => cell := CellBarricade;
        case LevelCheckpoint => AllocateItem(IVector2(x, y), ItemCheckpoint);
        case LevelBombRefill => AllocateItem(IVector2(x, y), ItemBombRefill);
        case LevelBombSlot => AllocateItem(IVector2(x, y), ItemBombSlot);
        case LevelKey => AllocateItem(IVector2(x, y), ItemKey);
        case LevelGuard => SpawnEeper(EeperGuard, IVector2(x, y));
        case LevelMother => SpawnEeper(EeperMother, IVector2(x, y));
        case LevelGnome => SpawnEeper(EeperGnome, IVector2(x, y));
        case LevelPlayer =>
          if updatePlayer {
            player := player.(position := IVector2(x, y), eyesTarget := IVector2(x, y + 1));
          }
        case _ =>
      }
      grid := grid[y := grid[y][x := cell]];
    }

    /** `LoadLevel`: see `Transitions.LoadLevel`; `err` when the level file cannot be read. */
    method LoadLevel(levelPath: string, isHub: bool) returns (err: bool)
      requires Valid()
      modifies this`grid, this`player, this`items, this`eepers, this`bombs, this`explosions, this`portals
      modifies this`turnAnimation, this`checkpoint, this`inHub, this`currentLevelPath
      ensures Valid()
      ensures (Snapshot(), err) == Transitions.LoadLevel(old(Snapshot()), files, spawner, levelPath, isHub)
    {
      if levelPath == "" {
        return false;
      }
      ClearLevel();
      err := EnterLevel(levelPath, isHub);
    }

    /** The first half of `LoadLevel`: the bombs, explosions, eepers, items and portals of the old level go. */
    method ClearLevel()
      modifies this`bombs, this`explosions, this`eepers, this`items, this`portals, this`turnAnimation
      ensures Snapshot() == Transitions.Cleared(old(Snapshot()))
    {
      bombs := [];
      explosions := [];
      eepers := [];
      items := [];
      portals := [];
      turnAnimation := 0.0;
    }

    /** The second half of `LoadLevel`, on a cleared state: the level is decoded, the player reset, a checkpoint taken. */
    method EnterLevel(levelPath: string, isHub: bool) returns (err: bool)
      requires Valid() && levelPath != ""
      requires Snapshot() == Transitions.Cleared(Snapshot())
      modifies this`grid, this`player, this`items, this`eepers, this`checkpoint, this`inHub, this`currentLevelPath
      ensures Valid()
      ensures (Snapshot(), err) == Transitions.LoadLevel(old(Snapshot()), files, spawner, levelPath, isHub)
    {
      ghost var s0 := Snapshot();
      err := LoadGameFromImage(levelPath, true);
      if err {
        assert Snapshot() == s0;
        return;
      }
      ghost var img := files(levelPath).value;
      assert items == Levels.ItemsOf(Levels.FullScan(img)) by {
        assert s0.items == [];
      }
      assert eepers == Levels.EepersOf(spawner, Levels.FullScan(img)) by {
        assert s0.eepers == [];
      }
      StartLevel(levelPath, isHub);
      Transitions.LoadLevelLoads(s0, files, spawner, levelPath, isHub);
    }

    /** The end of `LoadLevel`, once the map is decoded: the path and hub flag, the player's reset, the checkpoint. */
    method StartLevel(levelPath: string, isHub: bool)
      requires Valid()
      modifies this`player, this`checkpoint, this`inHub, this`currentLevelPath
      ensures Valid() && currentLevelPath == levelPath && inHub == isHub
      ensures player == old(player).(health := 1.0, dead := false, reachedFather := false, victoryTime := 0.0,
                                     bombSlots := 1, bombs := 0, keys := 0)
      ensures checkpoint == Checkpoints.Capture(grid, player, eepers, items, bombs)
    {
      currentLevelPath := levelPath;
      inHub := isHub;
      player := player.(health := 1.0, dead := false, reachedFather := false, victoryTime := 0.0,
                        bombSlots := 1, bombs := 0, keys := 0);
      SaveCheckpoint();
    }

    /** `LoadHub`: the hub of the current world, as a hub level. */
    method LoadHub() returns (err: bool)
      requires Valid()
      modifies this`grid, this`player, this`items, this`eepers, this`bombs, this`explosions, this`portals
      modifies this`turnAnimation, this`checkpoint, this`inHub, this`currentLevelPath
      ensures Valid()
      ensures (Snapshot(), err) == Transitions.LoadLevel(old(Snapshot()), files, spawner, worldConfig.GetCurrentHub(), true)
    {
      var hubPath := worldConfig.GetCurrentHub();
      err := LoadLevel(hubPath, true);
    }

    /**
     * `LoadNextLevel`, once the father is reached: from a level back to its hub; from a
     * hub on to the next world's hub, if there is a next world. `hasNext` is false when
     * there is no next world or the hub cannot be read.
     */
    method LoadNextLevel() returns (hasNext: bool, err: bool)
      requires Valid()
      modifies this`grid, this`player, this`items, this`eepers, this`bombs, this`explosions, this`portals
      modifies this`turnAnimation, this`checkpoint, this`inHub, this`currentLevelPath, worldConfig`currentWorld
      ensures Valid()
      ensures worldConfig.currentWorld
                == if old(inHub) && old(worldConfig.currentWorld) + 1 < |worldConfig.worlds|
                   then old(worldConfig.currentWorld) + 1 else old(worldConfig.currentWorld)
      ensures !old(inHub) || old(worldConfig.currentWorld) + 1 < |worldConfig.worlds| ==>
                && (Snapshot(), err) == Transitions.LoadLevel(old(Snapshot()), files, spawner, worldConfig.GetCurrentHub(), true)
                && hasNext == !err
      ensures old(inHub) && old(worldConfig.currentWorld) + 1 >= |worldConfig.worlds| ==>
                Snapshot() == old(Snapshot()) && !hasNext && !err
    {
      if !inHub {
        err := LoadHub();
        return !err, err;
      }
      var advanced := worldConfig.NextWorld();
      if advanced {
        err := LoadHub();
        return !err, err;
      }
      return false, false;
    }

    /** `RestartFromFirstLevel`: a fresh tutorial, the first world, and its hub. */
    method RestartFromFirstLevel() returns (err: bool)
      requires Valid()
      modifies this`grid, this`player, this`items, this`eepers, this`bombs, this`explosions, this`portals
      modifies this`turnAnimation, this`checkpoint, this`inHub, this`currentLevelPath, this`tutorial
      modifies worldConfig`currentWorld
      ensures Valid() && worldConfig.currentWorld == 0
      ensures (Snapshot(), err) == Transitions.LoadLevel(old(Snapshot()).(tutorial := Tutorial.Fresh()), files, spawner,
                                                         worldConfig.GetCurrentHub(), true)
    {
      tutorial := Tutorial.Fresh();
      worldConfig.currentWorld := 0;
      err := LoadHub();
    }

    /** `LoadLevelFromPortal`: the level behind portal number `portalNumber`; an unknown number does nothing. */
    method LoadLevelFromPortal(portalNumber: int) returns (err: bool)
      requires Valid()
      modifies this`grid, this`player, this`items, this`eepers, this`bombs, this`explosions, this`portals
      modifies this`turnAnimation, this`checkpoint, this`inHub, this`currentLevelPath
      ensures Valid()
      ensures (Snapshot(), err) == Transitions.LoadLevel(old(Snapshot()), files, spawner, worldConfig.GetLevel(portalNumber), false)
    {
      var levelPath := worldConfig.GetLevel(portalNumber);
      if levelPath == "" {
        return false;
      }
      err := LoadLevel(levelPath, false);
    }
  }
}
