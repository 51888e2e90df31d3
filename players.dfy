/**
 * The player's turn (pkg/game/player.go): one step in a direction, picking up the
 * items on the cell stepped onto, opening doors with keys, entering open portals,
 * and dying.
 */
module Players {
  import opened Wrappers
  import opened Geometry
  import opened Entities
  import opened Tutorial
  import opened Checkpoints
  import opened Portals

  datatype Direction = Left | Right | Up | Down

  function Vector(d: Direction): IVector2 {
    match d
    case Left => IVector2(-1, 0)
    case Right => IVector2(1, 0)
    case Up => IVector2(0, -1)
    case Down => IVector2(0, 1)
  }

  /** How many turns a bomb generator rests after handing out a bomb. */
  const BombGeneratorCooldown: int := 10

  /** The open progress above which stepping onto a portal enters it. */
  const PortalEnterProgress: real := 0.8

  /** `KillPlayer`: the first death zeroes the health and records the time; a dead player is left alone. */
  function Killed(p: Player, now: real): Player {
    if !p.dead then p.(health := 0.0, dead := true, deathTime := now) else p
  }

  lemma KillPlayerIsIdempotent(p: Player, now: real, later: real)
    ensures Killed(p, now).dead
    ensures !p.dead ==> Killed(p, now).health == 0.0 && Killed(p, now).deathTime == now
    ensures p.dead ==> Killed(p, now) == p
    ensures Killed(Killed(p, now), later) == Killed(p, now)
  {
  }

  // ---------------------------------------------------------------- doors

  /** The four edge steps, in some order, as `RemoveDoor` visits them. */
  predicate IsCardinalOrder(order: seq<IVector2>) {
    && |order| == 4
    && (forall d :: d in order ==> d in Directions)
    && (forall d :: d in Directions ==> d in order)
  }

  const Diagonals: seq<IVector2> := [IVector2(-1, -1), IVector2(-1, 1), IVector2(1, -1), IVector2(1, 1)]

  /** The eight steps of a door or barricade region. */
  const EightSteps: seq<IVector2> := Directions + Diagonals

  predicate Openable(c: Cell) {
    c == CellDoor || c == CellBarricade
  }

  /** The cell kind a door region spreads through: that of its start. */
  function RegionKind(m: Grid, start: IVector2): Cell
    requires Rectangular(m)
  {
    if WithinMap(m, start) && Openable(At(m, start)) then At(m, start) else CellDoor
  }

  /**
   * The cells `RemoveDoor` opens: those 8-connected to `start` through cells of the
   * start's own kind, when the start is a door or a barricade; none otherwise.
   */
  ghost function DoorRegion(m: Grid, start: IVector2): set<IVector2>
    requires Rectangular(m)
  {
    if WithinMap(m, start) && Openable(At(m, start)) then Region(m, EightSteps, At(m, start), start) else {}
  }

  /** The map after `RemoveDoor(start)`. */
  ghost function Opened(m: Grid, start: IVector2): Grid
    requires Rectangular(m)
  {
    Paint(m, DoorRegion(m, start), CellFloor)
  }

  /** Every opened cell is in the map and of the start's kind, and the start itself is opened when it is a door or a barricade. */
  lemma DoorRegionIsUniform(m: Grid, start: IVector2, p: IVector2)
    requires Rectangular(m)
    ensures p in DoorRegion(m, start) ==> WithinMap(m, p) && At(m, p) == At(m, start) && Openable(At(m, p))
    ensures WithinMap(m, start) && Openable(At(m, start)) ==> start in DoorRegion(m, start)
  {
    if p in DoorRegion(m, start) {
      CellsAreWithinMap(m, p);
      if p != start {
        ConnectedHolds(m, EightSteps, At(m, start), start, p);
      }
    }
    if WithinMap(m, start) && Openable(At(m, start)) {
      ConnectedStart(m, EightSteps, At(m, start), start);
      CellsAreWithinMap(m, start);
    }
  }

  /**
   * The state of `RemoveDoor`'s search: `visited` holds the start and cells of the
   * region's kind connected to it, `done` the cells already opened (all of `visited`
   * not waiting in the queue), and every opened cell has had its eligible neighbours
   * in the directions of `seen` visited.
   */
  ghost predicate DoorSearch(m: Grid, start: IVector2, queue: seq<IVector2>, visited: set<IVector2>,
                             done: set<IVector2>)
    requires Rectangular(m)
  {
    var t := RegionKind(m, start);
    && start in visited
    && visited <= Cells(m) + {start}
    && (forall v :: v in queue ==> v in visited)
    && visited == done + (set v | v in queue)
    && (forall v :: v in visited && v != start ==> WithinMap(m, v) && At(m, v) == t)
    && (forall v :: v in visited ==> Connected(m, EightSteps, t, start, v))
    && (forall v :: v in done ==> WithinMap(m, v) && At(m, v) == t)
    && (!(WithinMap(m, start) && Openable(At(m, start))) ==> done == {} && visited == {start})
  }

  /** Every eligible neighbour of the opened cells, in the directions of `steps`, has been visited. */
  ghost predicate DoorClosed(m: Grid, start: IVector2, done: set<IVector2>, visited: set<IVector2>, steps: set<IVector2>)
    requires Rectangular(m)
  {
    forall p, d :: p in done && d in steps && WithinMap(m, p.Add(d)) && At(m, p.Add(d)) == RegionKind(m, start) ==>
      p.Add(d) in visited
  }

  /** Every eligible neighbour of `curr` in the directions of `steps` has been visited. */
  ghost predicate NeighboursVisited(m: Grid, start: IVector2, curr: IVector2, steps: seq<IVector2>, visited: set<IVector2>)
    requires Rectangular(m)
  {
    forall d :: d in steps && WithinMap(m, curr.Add(d)) && At(m, curr.Add(d)) == RegionKind(m, start) ==>
      curr.Add(d) in visited
  }

  /** One more direction handled, when its neighbour is visited if eligible. */
  lemma NeighboursVisitedStep(m: Grid, start: IVector2, curr: IVector2, steps: seq<IVector2>, k: nat,
                              visited: set<IVector2>, visited': set<IVector2>)
    requires Rectangular(m) && k < |steps|
    requires NeighboursVisited(m, start, curr, steps[..k], visited) && visited <= visited'
    requires WithinMap(m, curr.Add(steps[k])) && At(m, curr.Add(steps[k])) == RegionKind(m, start) ==>
               curr.Add(steps[k]) in visited'
    ensures NeighboursVisited(m, start, curr, steps[..k + 1], visited')
  {
    assert steps[..k + 1] == steps[..k] + [steps[k]];
  }

  /**
   * While the opened cells are painted as floor, the test `RemoveDoor` makes on an
   * unvisited cell of the current map is the test of the region's kind on the original map.
   */
  lemma UnvisitedTest(m: Grid, start: IVector2, queue: seq<IVector2>, visited: set<IVector2>, done: set<IVector2>,
                      g: Grid, next: IVector2, isBarricade: bool)
    requires Rectangular(m) && g == Paint(m, done, CellFloor)
    requires DoorSearch(m, start, queue, visited, done) && done != {} && next !in visited
    requires isBarricade <==> RegionKind(m, start) == CellBarricade
    ensures (WithinMap(g, next) && ((isBarricade && g[next.y][next.x] == CellBarricade)
                                    || (!isBarricade && g[next.y][next.x] == CellDoor)))
            <==> WithinMap(m, next) && At(m, next) == RegionKind(m, start)
  {
    if WithinMap(m, next) {
      PaintAt(m, done, CellFloor, next);
    }
  }

  /**
   * Taking the head off the queue: it is opened exactly when it is not opened yet, and
   * then it is a cell of the region's kind in the map; either way the search state holds.
   */
  lemma DoorSearchStep(m: Grid, start: IVector2, queue: seq<IVector2>, visited: set<IVector2>, done: set<IVector2>,
                       g: Grid)
    requires Rectangular(m) && g == Paint(m, done, CellFloor)
    requires DoorSearch(m, start, queue, visited, done) && |queue| > 0
    requires WithinMap(m, start) && Openable(At(m, start))
    ensures var curr := queue[0];
            var open := WithinMap(g, curr) && (g[curr.y][curr.x] == CellDoor || g[curr.y][curr.x] == CellBarricade);
            && (open ==> && curr !in done && WithinMap(m, curr)
                         && DoorSearch(m, start, queue[1..], visited, done + {curr})
                         && (g[curr.y][curr.x] == CellBarricade <==> RegionKind(m, start) == CellBarricade))
            && (!open ==> DoorSearch(m, start, queue[1..], visited, done))
  {
    var curr := queue[0];
    DoorSearchHead(m, start, queue, visited, done);
    DoorSearchPops(m, start, queue, visited, done);
    if WithinMap(m, curr) {
      PaintAt(m, done, CellFloor, curr);
    }
    if curr in done {
      assert done + {curr} == done;
    }
  }

  /** Once both neighbour loops around a newly opened cell are done, every opened cell has its neighbours visited. */
  lemma DoorClosedGrows(m: Grid, start: IVector2, done: set<IVector2>, visited: set<IVector2>, visited': set<IVector2>,
                        curr: IVector2, order: seq<IVector2>)
    requires Rectangular(m) && IsCardinalOrder(order)
    requires DoorClosed(m, start, done, visited, set d | d in EightSteps) && visited <= visited'
    requires NeighboursVisited(m, start, curr, order, visited') && NeighboursVisited(m, start, curr, Diagonals, visited')
    ensures DoorClosed(m, start, done + {curr}, visited', set d | d in EightSteps)
  {
  }

  /**
   * The state of the loop of `RemoveDoor` from `start` over the original map `m`: for a
   * door or barricade start, the search invariant; otherwise nothing opened and only the
   * start queued; and in both cases every neighbour of an opened cell that belongs to
   * the region has been visited.
   */
  ghost predicate Removing(m: Grid, start: IVector2, queue: seq<IVector2>, visited: set<IVector2>, done: set<IVector2>)
    requires Rectangular(m)
  {
    var openable := WithinMap(m, start) && Openable(At(m, start));
    && (openable ==> DoorSearch(m, start, queue, visited, done))
    && (!openable ==> done == {} && visited == {start} && forall v :: v in queue ==> v == start)
    && DoorClosed(m, start, done, visited, set d | d in EightSteps)
  }

  /** The loop of `RemoveDoor` starts with only `start` queued and visited. */
  lemma RemovingStarts(m: Grid, start: IVector2)
    requires Rectangular(m)
    ensures Removing(m, start, [start], {start}, {})
  {
    if WithinMap(m, start) && Openable(At(m, start)) {
      CellsAreWithinMap(m, start);
    }
  }

  /** When the queue runs out, the opened cells are the door region of `start`. */
  lemma RemovingEnds(m: Grid, start: IVector2, visited: set<IVector2>, done: set<IVector2>)
    requires Rectangular(m) && Removing(m, start, [], visited, done)
    ensures done == DoorRegion(m, start)
  {
    if WithinMap(m, start) && Openable(At(m, start)) {
      DoorSearchComplete(m, start, visited, done);
    }
  }

  /** The search is finished: with the queue empty, the opened cells are exactly the door region. */
  lemma DoorSearchComplete(m: Grid, start: IVector2, visited: set<IVector2>, done: set<IVector2>)
    requires Rectangular(m)
    requires DoorSearch(m, start, [], visited, done)
    requires DoorClosed(m, start, done, visited, set d | d in EightSteps)
    ensures done == DoorRegion(m, start)
  {
    assert visited == done;
    if WithinMap(m, start) && Openable(At(m, start)) {
      var t := At(m, start);
      ClosedSetContainsRegion(m, EightSteps, t, start, done);
      forall p | p in done
        ensures p in Region(m, EightSteps, t, start)
      {
        CellsAreWithinMap(m, p);
      }
    }
  }

  /** Visiting an eligible neighbour of a connected cell keeps the search state. */
  lemma DoorSearchVisits(m: Grid, start: IVector2, queue: seq<IVector2>, visited: set<IVector2>, done: set<IVector2>,
                         curr: IVector2, d: IVector2)
    requires Rectangular(m)
    requires DoorSearch(m, start, queue, visited, done)
    requires curr in done && d in EightSteps
    requires WithinMap(m, curr.Add(d)) && At(m, curr.Add(d)) == RegionKind(m, start)
    ensures DoorSearch(m, start, queue + [curr.Add(d)], visited + {curr.Add(d)}, done)
  {
    var t := RegionKind(m, start);
    var next := curr.Add(d);
    var k :| 0 <= k < |EightSteps| && EightSteps[k] == d;
    ConnectedStep(m, EightSteps, t, start, curr, k);
    CellsAreWithinMap(m, next);
    assert (set v | v in queue + [next]) == (set v | v in queue) + {next};
  }

  /** The head of the queue has been visited, and lies in the map with the region's kind unless it is the start. */
  lemma DoorSearchHead(m: Grid, start: IVector2, queue: seq<IVector2>, visited: set<IVector2>, done: set<IVector2>)
    requires Rectangular(m)
    requires DoorSearch(m, start, queue, visited, done) && |queue| > 0
    ensures queue[0] in visited
    ensures queue[0] != start ==> WithinMap(m, queue[0]) && At(m, queue[0]) == RegionKind(m, start)
    ensures queue[0] == start && WithinMap(m, start) && Openable(At(m, start)) ==> At(m, queue[0]) == RegionKind(m, start)
  {
  }

  /** Popping a cell off the queue that is opened already or is now opened keeps the search state. */
  lemma DoorSearchPops(m: Grid, start: IVector2, queue: seq<IVector2>, visited: set<IVector2>, done: set<IVector2>)
    requires Rectangular(m)
    requires DoorSearch(m, start, queue, visited, done) && |queue| > 0
    requires queue[0] in done || (WithinMap(m, queue[0]) && At(m, queue[0]) == RegionKind(m, start))
    ensures DoorSearch(m, start, queue[1..], visited, done + {queue[0]})
  {
    var curr := queue[0];
    assert queue == [curr] + queue[1..];
    assert (set v | v in queue) == (set v | v in queue[1..]) + {curr};
    assert visited == (done + {curr}) + (set v | v in queue[1..]);
  }

  // ---------------------------------------------------------------- items

  /** What the item loop of a floor step reads and writes. */
  datatype Walk = Walk(player: Player, items: seq<Item>, tutorial: TutorialState, checkpoint: Checkpoint)

  /** The effect of item `i` on a player standing at `pos`; the map, eepers and bombs go into a checkpoint. */
  function PickUpItem(w: Walk, i: nat, pos: IVector2, m: Grid, eepers: seq<Eeper>, bombs: seq<Bomb>): (r: Walk)
    requires i < |w.items|
    ensures |r.items| == |w.items|
  {
    var item := w.items[i];
    if item.position != pos then w
    else
      match item.kind
      case ItemKey =>
        w.(player := w.player.(keys := w.player.keys + 1), items := w.items[i := item.(kind := ItemNone)])
      case ItemBombRefill =>
        if w.player.bombs < w.player.bombSlots && item.cooldown <= 0 then
          var t := if w.player.bombs == 0 && w.tutorial.phase == TutorialWaitingForBombPick
                   then w.tutorial.(phase := TutorialPlaceBombs) else w.tutorial;
          w.(player := w.player.(bombs := w.player.bombs + 1),
             items := w.items[i := item.(cooldown := BombGeneratorCooldown)],
             tutorial := t)
        else w
      case ItemBombSlot =>
        w.(player := w.player.(bombSlots := w.player.bombSlots + 1), items := w.items[i := item.(kind := ItemNone)])
      case ItemCheckpoint =>
        var items := w.items[i := item.(kind := ItemNone)];
        w.(items := items, checkpoint := Capture(m, w.player, eepers, items, bombs))
      case ItemNone => w
  }

  /** The items from `i` on, handled in order. */
  function PickUpFrom(w: Walk, i: nat, pos: IVector2, m: Grid, eepers: seq<Eeper>, bombs: seq<Bomb>): (r: Walk)
    requires i <= |w.items|
    ensures |r.items| == |w.items|
    decreases |w.items| - i
  {
    if i == |w.items| then w else PickUpFrom(PickUpItem(w, i, pos, m, eepers, bombs), i + 1, pos, m, eepers, bombs)
  }

  /** A player standing on a portal open more than `PortalEnterProgress` starts entering it. */
  function EnterPortal(p: Player, portals: seq<Portal>, pos: IVector2, now: real): Player {
    var k := PortalAt(portals, pos);
    if k.Some? && portals[k.value].openProgress > PortalEnterProgress then
      p.(enteringPortal := true, portalEntryTime := now, portalToActivate := portals[k.value].id)
    else p
  }

  // ---------------------------------------------------------------- the turn

  /** What a player turn reads and writes. */
  datatype Scene = Scene(
    grid: Grid,
    player: Player,
    items: seq<Item>,
    eepers: seq<Eeper>,
    bombs: seq<Bomb>,
    portals: seq<Portal>,
    tutorial: TutorialState,
    checkpoint: Checkpoint)

  /** The scene after the player tries to step in direction `dir`. */
  ghost function Turn(s: Scene, dir: Direction, now: real): Scene
    requires Rectangular(s.grid)
  {
    var newPos := s.player.position.Add(Vector(dir));
    if !WithinMap(s.grid, newPos) then s.(player := Looking(s.player, dir))
    else if At(s.grid, newPos) == CellFloor then OntoFloor(s, dir, now)
    else if At(s.grid, newPos) == CellDoor then IntoDoor(s, dir)
    else s.(player := Looking(s.player, dir))
  }

  /** The player of a turn before it moves: the old position recorded and the eyes two cells ahead. */
  function Looking(p: Player, dir: Direction): Player {
    p.(prevPosition := p.position, eyesTarget := p.position.Add(Vector(dir)).Add(Vector(dir)))
  }

  /** A turn onto a floor cell: the step, the items there, and a portal there. */
  ghost function OntoFloor(s: Scene, dir: Direction, now: real): Scene {
    var newPos := s.player.position.Add(Vector(dir));
    var w := PickUpFrom(Walk(Looking(s.player, dir).(position := newPos), s.items, s.tutorial, s.checkpoint), 0, newPos,
                        s.grid, s.eepers, s.bombs);
    s.(player := EnterPortal(w.player, s.portals, newPos, now), items := w.items, tutorial := w.tutorial,
       checkpoint := w.checkpoint)
  }

  /** A turn into a door: with a key, it is spent, the door region opened and the door cell entered. */
  ghost function IntoDoor(s: Scene, dir: Direction): Scene
    requires Rectangular(s.grid)
  {
    var newPos := s.player.position.Add(Vector(dir));
    var p1 := Looking(s.player, dir);
    if p1.keys > 0 then s.(player := p1.(keys := p1.keys - 1, position := newPos), grid := Opened(s.grid, newPos))
    else s.(player := p1)
  }

  /** A turn out of the map or against a cell that is neither floor nor door only records the look. */
  lemma TurnStays(s: Scene, dir: Direction, now: real)
    requires Rectangular(s.grid)
    requires var n := s.player.position.Add(Vector(dir));
             !WithinMap(s.grid, n) || (At(s.grid, n) != CellFloor && At(s.grid, n) != CellDoor)
    ensures Turn(s, dir, now) == s.(player := Looking(s.player, dir))
  {
  }

  /** Every turn records the old position and looks two cells ahead. */
  lemma TurnLooksAhead(s: Scene, dir: Direction, now: real)
    requires Rectangular(s.grid)
    ensures Turn(s, dir, now).player.prevPosition == s.player.position
    ensures Turn(s, dir, now).player.eyesTarget == s.player.position.Add(Vector(dir)).Add(Vector(dir))
  {
    var n := s.player.position.Add(Vector(dir));
    if WithinMap(s.grid, n) && At(s.grid, n) == CellFloor {
      OntoFloorMoves(s, dir, now);
    }
  }

  /**
   * A floor step keeps the look of the turn, moves the player onto the cell, and leaves
   * their life, the map, the eepers, the bombs and the portals alone.
   */
  lemma OntoFloorMoves(s: Scene, dir: Direction, now: real)
    ensures var r, p := OntoFloor(s, dir, now), Looking(s.player, dir);
            && r.player.prevPosition == p.prevPosition && r.player.eyesTarget == p.eyesTarget
            && r.player.position == s.player.position.Add(Vector(dir))
            && r.player.dead == s.player.dead && r.player.health == s.player.health
            && r.grid == s.grid && r.eepers == s.eepers && r.bombs == s.bombs && r.portals == s.portals
  {
    var n := s.player.position.Add(Vector(dir));
    var w0 := Walk(Looking(s.player, dir).(position := n), s.items, s.tutorial, s.checkpoint);
    PickUpKeepsLook(w0, 0, n, s.grid, s.eepers, s.bombs);
    PickUpKeepsLife(w0, 0, n, s.grid, s.eepers, s.bombs);
  }

  lemma {:induction false} PickUpKeepsLook(w: Walk, i: nat, pos: IVector2, m: Grid, eepers: seq<Eeper>, bombs: seq<Bomb>)
    requires i <= |w.items|
    ensures var r := PickUpFrom(w, i, pos, m, eepers, bombs);
            r.player.prevPosition == w.player.prevPosition && r.player.eyesTarget == w.player.eyesTarget
            && r.player.position == w.player.position && r.player.keys >= w.player.keys
    decreases |w.items| - i
  {
    if i < |w.items| {
      PickUpKeepsLook(PickUpItem(w, i, pos, m, eepers, bombs), i + 1, pos, m, eepers, bombs);
    }
  }

  /** A step out of the map or into a wall, barricade, empty or exploding cell moves nothing and changes nothing else. */
  lemma TurnBlocked(s: Scene, dir: Direction, now: real)
    requires Rectangular(s.grid)
    requires var n := s.player.position.Add(Vector(dir));
             !WithinMap(s.grid, n) || At(s.grid, n) !in {CellFloor, CellDoor}
    ensures Turn(s, dir, now).player.position == s.player.position
    ensures Turn(s, dir, now).(player := s.player) == s
  {
  }

  /** At a door the player spends a key, opens the door region and steps in; without a key nothing else happens. */
  lemma TurnAtDoor(s: Scene, dir: Direction, now: real)
    requires Rectangular(s.grid)
    requires var n := s.player.position.Add(Vector(dir));
             WithinMap(s.grid, n) && At(s.grid, n) == CellDoor
    ensures var n := s.player.position.Add(Vector(dir));
            s.player.keys > 0 ==>
              (Turn(s, dir, now).player.keys == s.player.keys - 1
               && Turn(s, dir, now).player.position == n
               && Turn(s, dir, now).grid == Opened(s.grid, n))
    ensures s.player.keys <= 0 ==>
              (Turn(s, dir, now).(player := s.player) == s
               && Turn(s, dir, now).player.position == s.player.position)
  {
  }

  /** Handling one item keeps the bomb count within the slots: a refill is only taken below the limit. */
  lemma PickUpItemKeepsBombsWithinSlots(w: Walk, i: nat, pos: IVector2, m: Grid, eepers: seq<Eeper>, bombs: seq<Bomb>)
    requires i < |w.items| && w.player.bombs <= w.player.bombSlots
    ensures var r := PickUpItem(w, i, pos, m, eepers, bombs);
            r.player.bombs <= r.player.bombSlots && r.player.bombs >= w.player.bombs
  {
  }

  lemma {:induction false} PickUpKeepsBombsWithinSlots(w: Walk, i: nat, pos: IVector2, m: Grid, eepers: seq<Eeper>,
                                                       bombs: seq<Bomb>)
    requires i <= |w.items| && w.player.bombs <= w.player.bombSlots
    ensures var r := PickUpFrom(w, i, pos, m, eepers, bombs);
            r.player.bombs <= r.player.bombSlots && r.player.bombs >= w.player.bombs
    decreases |w.items| - i
  {
    if i < |w.items| {
      PickUpItemKeepsBombsWithinSlots(w, i, pos, m, eepers, bombs);
      PickUpKeepsBombsWithinSlots(PickUpItem(w, i, pos, m, eepers, bombs), i + 1, pos, m, eepers, bombs);
    }
  }

  /** A turn never lets the player carry more bombs than bomb slots. */
  lemma TurnKeepsBombsWithinSlots(s: Scene, dir: Direction, now: real)
    requires Rectangular(s.grid) && s.player.bombs <= s.player.bombSlots
    ensures Turn(s, dir, now).player.bombs <= Turn(s, dir, now).player.bombSlots
  {
    var n := s.player.position.Add(Vector(dir));
    var p1 := s.player.(prevPosition := s.player.position, eyesTarget := n.Add(Vector(dir)));
    PickUpKeepsBombsWithinSlots(Walk(p1.(position := n), s.items, s.tutorial, s.checkpoint), 0, n, s.grid, s.eepers, s.bombs);
  }

  /**
   * One item on the player's cell: a key or a bomb slot is collected and counted, a
   * refill hands out a bomb and rests only when there is room and it is not resting,
   * and a checkpoint is collected and then saved with the item already collected.
   */
  lemma PickUpItemEffects(w: Walk, i: nat, pos: IVector2, m: Grid, eepers: seq<Eeper>, bombs: seq<Bomb>)
    requires i < |w.items| && w.items[i].position == pos
    ensures var r := PickUpItem(w, i, pos, m, eepers, bombs);
            var item := w.items[i];
            && (item.kind == ItemKey ==> r.player.keys == w.player.keys + 1 && r.items[i].kind == ItemNone)
            && (item.kind == ItemBombSlot ==> r.player.bombSlots == w.player.bombSlots + 1 && r.items[i].kind == ItemNone)
            && (item.kind == ItemBombRefill && w.player.bombs < w.player.bombSlots && item.cooldown <= 0 ==>
                  (r.player.bombs == w.player.bombs + 1 && r.items[i].kind == ItemBombRefill
                   && r.items[i].cooldown == BombGeneratorCooldown))
            && (item.kind == ItemBombRefill && !(w.player.bombs < w.player.bombSlots && item.cooldown <= 0) ==> r == w)
            && (item.kind == ItemCheckpoint ==>
                  (r.items[i].kind == ItemNone && r.checkpoint == Capture(m, w.player, eepers, r.items, bombs)))
            && (forall j :: 0 <= j < |w.items| && j != i ==> r.items[j] == w.items[j])
  {
  }

  /** Items elsewhere are never touched by a step. */
  lemma {:induction false} PickUpLeavesOtherCells(w: Walk, i: nat, pos: IVector2, m: Grid, eepers: seq<Eeper>, bombs: seq<Bomb>)
    requires i <= |w.items|
    ensures var r := PickUpFrom(w, i, pos, m, eepers, bombs);
            forall j :: 0 <= j < |w.items| && w.items[j].position != pos ==> r.items[j] == w.items[j]
    decreases |w.items| - i
  {
    if i < |w.items| {
      PickUpLeavesOtherCells(PickUpItem(w, i, pos, m, eepers, bombs), i + 1, pos, m, eepers, bombs);
    }
  }

  /** Stepping onto a floor cell of a portal open beyond `PortalEnterProgress` starts entering that portal. */
  lemma TurnEntersOpenPortal(s: Scene, dir: Direction, now: real)
    requires Rectangular(s.grid)
    requires var n := s.player.position.Add(Vector(dir));
             && WithinMap(s.grid, n) && At(s.grid, n) == CellFloor
             && PortalAt(s.portals, n).Some? && s.portals[PortalAt(s.portals, n).value].openProgress > PortalEnterProgress
    ensures var n := s.player.position.Add(Vector(dir));
            && Turn(s, dir, now).player.position == n
            && Turn(s, dir, now).player.enteringPortal
            && Turn(s, dir, now).player.portalToActivate == s.portals[PortalAt(s.portals, n).value].id
            && Turn(s, dir, now).grid == s.grid
  {
    var n := s.player.position.Add(Vector(dir));
    var p1 := s.player.(prevPosition := s.player.position, eyesTarget := n.Add(Vector(dir)));
    PickUpKeepsLook(Walk(p1.(position := n), s.items, s.tutorial, s.checkpoint), 0, n, s.grid, s.eepers, s.bombs);
  }

  /** A turn keeps the map's shape: opening doors only repaints cells. */
  lemma TurnKeepsShape(s: Scene, dir: Direction, now: real)
    requires Rectangular(s.grid)
    ensures Rectangular(Turn(s, dir, now).grid) && SameShape(s.grid, Turn(s, dir, now).grid)
  {
  }

  /**
   * A turn moves the player by at most one step, in the chosen direction, and never
   * changes whether the player is dead, their health, the eepers, the bombs or the portals.
   */
  lemma TurnMovesAtMostOneStep(s: Scene, dir: Direction, now: real)
    requires Rectangular(s.grid)
    ensures var r := Turn(s, dir, now);
            && (r.player.position == s.player.position || r.player.position == s.player.position.Add(Vector(dir)))
            && r.player.dead == s.player.dead && r.player.health == s.player.health
            && r.eepers == s.eepers && r.bombs == s.bombs && r.portals == s.portals
  {
    var n := s.player.position.Add(Vector(dir));
    if WithinMap(s.grid, n) && At(s.grid, n) == CellFloor {
      OntoFloorMoves(s, dir, now);
    }
  }

  /** Picking up items never changes whether the player is dead or their health. */
  lemma {:induction false} PickUpKeepsLife(w: Walk, i: nat, pos: IVector2, m: Grid, eepers: seq<Eeper>, bombs: seq<Bomb>)
    requires i <= |w.items|
    ensures var r := PickUpFrom(w, i, pos, m, eepers, bombs);
            r.player.dead == w.player.dead && r.player.health == w.player.health
    decreases |w.items| - i
  {
    if i < |w.items| {
      PickUpKeepsLife(PickUpItem(w, i, pos, m, eepers, bombs), i + 1, pos, m, eepers, bombs);
    }
  }
}
