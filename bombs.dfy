/**
 * Bombs and their blasts (pkg/game/bomb.go), as functions of the part of the game
 * state they touch. `Explode`, `Ray`, `FillAround` and `FillLoop` follow the loops of
 * the game step by step, so that the game's `State` methods are proved equal to them;
 * the lemmas then say what a blast does to the map, the player and the eepers.
 */
module Bombs {
  import opened Wrappers
  import opened Geometry
  import opened Entities
  import opened Players
  import opened Explosions

  /** The turns between planting a bomb and its blast. */
  const BombCountdown: int := 3

  /** The health a blast takes from a damaged guard. */
  const ExplosionDamage: real := 0.45

  /** How far a blast reaches in each direction. */
  const BlastRange: int := 4

  /** What a blast reads and writes. */
  datatype Arena = Arena(grid: Grid, explosions: seq<Explosion>, player: Player, eepers: seq<Eeper>)

  // ---------------------------------------------------------------- damage

  /** An eeper after a blast at `pos`: flagged as damaged when it is alive and covers `pos`. */
  function Flag(e: Eeper, pos: IVector2): Eeper {
    if !e.dead && InsideRect(e.position, e.size, pos) then e.(damaged := true) else e
  }

  function Flagged(es: seq<Eeper>, pos: IVector2): (r: seq<Eeper>)
    ensures |r| == |es| && forall i :: 0 <= i < |es| ==> r[i] == Flag(es[i], pos)
  {
    seq(|es|, i requires 0 <= i < |es| => Flag(es[i], pos))
  }

  /** `damageAtPosition`. */
  function DamageAt(a: Arena, pos: IVector2, now: real): Arena {
    a.(player := if a.player.position == pos then Killed(a.player, now) else a.player,
       eepers := Flagged(a.eepers, pos))
  }

  /**
   * A blast at `pos` kills the player exactly when the player stands at `pos` (or is
   * dead already), and flags as damaged exactly the live eepers whose rectangle holds
   * `pos`, changing nothing else about them.
   */
  lemma DamageAtHitsExactly(a: Arena, pos: IVector2, now: real)
    ensures DamageAt(a, pos, now).player.dead <==> a.player.dead || a.player.position == pos
    ensures a.player.position != pos ==> DamageAt(a, pos, now).player == a.player
    ensures |DamageAt(a, pos, now).eepers| == |a.eepers|
    ensures forall i :: 0 <= i < |a.eepers| ==>
              (DamageAt(a, pos, now).eepers[i].damaged <==> a.eepers[i].damaged || (!a.eepers[i].dead && a.eepers[i].Covers(pos)))
    ensures forall i :: 0 <= i < |a.eepers| ==> DamageAt(a, pos, now).eepers[i].(damaged := a.eepers[i].damaged) == a.eepers[i]
    ensures DamageAt(a, pos, now).grid == a.grid && DamageAt(a, pos, now).explosions == a.explosions
  {
  }

  // ---------------------------------------------------------------- flood fill

  /** The cells of the map holding `c`. */
  ghost function CellsOf(m: Grid, c: Cell): set<IVector2>
    requires Rectangular(m)
  {
    set y, x | 0 <= y < |m| && 0 <= x < Width(m) && m[y][x] == c :: IVector2(x, y)
  }

  lemma PutShrinks(m: Grid, p: IVector2, c: Cell, fill: Cell)
    requires Rectangular(m) && WithinMap(m, p) && At(m, p) == c && fill != c
    ensures CellsOf(Put(m, p, fill), c) == CellsOf(m, c) - {p}
  {
    var r := Put(m, p, fill);
    forall q | q in CellsOf(m, c) - {p}
      ensures q in CellsOf(r, c)
    {
      assert WithinMap(m, q) && At(r, q) == At(m, q);
    }
  }

  /** The inner loop of `FloodFill`: fill the `bg` neighbours `k..3` of `cur`, queue them, and blast them. */
  function FillAround(grid: Grid, exps: seq<Explosion>, cur: IVector2, k: nat, queue: seq<IVector2>, bg: Cell, fill: Cell)
    : (r: (Grid, seq<Explosion>, seq<IVector2>))
    requires Rectangular(grid) && k <= 4 && bg != fill
    ensures Rectangular(r.0) && SameShape(grid, r.0)
    ensures CellsOf(r.0, bg) <= CellsOf(grid, bg)
    ensures CellsOf(r.0, bg) == CellsOf(grid, bg) ==> r.2 == queue
    decreases 4 - k
  {
    if k == 4 then (grid, exps, queue)
    else
      var n := cur.Add(Directions[k]);
      if WithinMap(grid, n) && At(grid, n) == bg then
        PutShrinks(grid, n, bg, fill);
        FillAround(Put(grid, n, fill), exps + [Blast(n)], cur, k + 1, queue + [n], bg, fill)
      else
        FillAround(grid, exps, cur, k + 1, queue, bg, fill)
  }

  /** One step of the inner loop of `FloodFill`, for the `State` method that runs it. */
  lemma FillAroundStep(grid: Grid, exps: seq<Explosion>, cur: IVector2, k: nat, queue: seq<IVector2>, bg: Cell, fill: Cell)
    requires Rectangular(grid) && k < 4 && bg != fill
    ensures var n := cur.Add(Directions[k]);
            FillAround(grid, exps, cur, k, queue, bg, fill)
              == if WithinMap(grid, n) && At(grid, n) == bg
                 then FillAround(Put(grid, n, fill), exps + [Blast(n)], cur, k + 1, queue + [n], bg, fill)
                 else FillAround(grid, exps, cur, k + 1, queue, bg, fill)
  {
  }

  /** The outer loop of `FloodFill`: pop the oldest cell and fill around it until the queue is empty. */
  function FillLoop(grid: Grid, exps: seq<Explosion>, queue: seq<IVector2>, bg: Cell, fill: Cell)
    : (r: (Grid, seq<Explosion>))
    requires Rectangular(grid) && bg != fill
    ensures Rectangular(r.0) && SameShape(grid, r.0)
    decreases CellsOf(grid, bg), |queue|
  {
    if |queue| == 0 then (grid, exps)
    else
      var s := FillAround(grid, exps, queue[0], 0, queue[1..], bg, fill);
      FillLoop(s.0, s.1, s.2, bg, fill)
  }

  /** One round of the outer loop of `FloodFill`, which either fills a cell or shortens the queue. */
  lemma FillLoopStep(grid: Grid, exps: seq<Explosion>, queue: seq<IVector2>, bg: Cell, fill: Cell)
    requires Rectangular(grid) && bg != fill && |queue| > 0
    ensures var s := FillAround(grid, exps, queue[0], 0, queue[1..], bg, fill);
            && FillLoop(grid, exps, queue, bg, fill) == FillLoop(s.0, s.1, s.2, bg, fill)
            && CellsOf(s.0, bg) <= CellsOf(grid, bg)
            && (CellsOf(s.0, bg) == CellsOf(grid, bg) ==> |s.2| < |queue|)
  {
  }

  /**
   * `FloodFill`: a start outside the map changes nothing; otherwise the start is filled
   * and blasted whatever it holds, and then every `bg` cell reached through `bg` cells.
   * The game reads the width from the first row, so the map must have one.
   */
  function FloodFill(a: Arena, start: IVector2, bg: Cell, fill: Cell): (r: Arena)
    requires Rectangular(a.grid) && |a.grid| > 0 && bg != fill
    ensures Rectangular(r.grid) && SameShape(a.grid, r.grid)
    ensures r.player == a.player && r.eepers == a.eepers
  {
    if !WithinMap(a.grid, start) then a
    else
      var s := FillLoop(Put(a.grid, start, fill), a.explosions + [Blast(start)], [start], bg, fill);
      a.(grid := s.0, explosions := s.1)
  }

  /** `exps` is `exps0` followed by one fresh blast per cell of `cells`, each cell once. */
  ghost predicate BlastsEach(exps0: seq<Explosion>, exps: seq<Explosion>, cells: set<IVector2>) {
    && |exps0| <= |exps| && exps[..|exps0|] == exps0
    && (forall i :: |exps0| <= i < |exps| ==> exps[i] == Blast(exps[i].position))
    && (forall i, j :: |exps0| <= i < j < |exps| ==> exps[i].position != exps[j].position)
    && (set i | |exps0| <= i < |exps| :: exps[i].position) == cells
  }

  /** The state of a flood fill from `start` over the original map `m0`, with the cells `filled` so far. */
  ghost predicate Filling(m0: Grid, start: IVector2, bg: Cell, fill: Cell, exps0: seq<Explosion>,
                          grid: Grid, exps: seq<Explosion>, queue: seq<IVector2>, filled: set<IVector2>)
    requires Rectangular(m0)
  {
    && grid == Paint(m0, filled, fill)
    && start in filled
    && (forall p :: p in filled ==> WithinMap(m0, p) && Connected(m0, Directions, bg, start, p))
    && (forall p :: p in queue ==> p in filled)
    && BlastsEach(exps0, exps, filled)
  }

  /**
   * Every filled cell that has left the queue has had its `bg` neighbours filled; for
   * `cur` only the neighbours before `k` so far.
   */
  ghost predicate FillClosed(m0: Grid, bg: Cell, filled: set<IVector2>, queue: seq<IVector2>, cur: IVector2, k: nat)
    requires Rectangular(m0)
  {
    forall p, j :: p in filled && p !in queue && 0 <= j < 4 && (p == cur ==> j < k)
                   && WithinMap(m0, p.Add(Directions[j])) && At(m0, p.Add(Directions[j])) == bg
                   ==> p.Add(Directions[j]) in filled
  }

  /** One more fresh blast, on a cell not blasted yet. */
  lemma BlastsEachGrows(exps0: seq<Explosion>, exps: seq<Explosion>, cells: set<IVector2>, n: IVector2)
    requires BlastsEach(exps0, exps, cells) && n !in cells
    ensures BlastsEach(exps0, exps + [Blast(n)], cells + {n})
  {
    var exps' := exps + [Blast(n)];
    assert exps'[..|exps0|] == exps0;
    var l := set i | |exps0| <= i < |exps'| :: exps'[i].position;
    var r := set i | |exps0| <= i < |exps| :: exps[i].position;
    forall q | q in l
      ensures q in r + {n}
    {
      var i :| |exps0| <= i < |exps'| && exps'[i].position == q;
      if i < |exps| {
        assert exps[i].position == q;
      }
    }
    forall q | q in r + {n}
      ensures q in l
    {
      if q == n {
        assert exps'[|exps|].position == n;
      } else {
        var i :| |exps0| <= i < |exps| && exps[i].position == q;
        assert exps'[i].position == q;
      }
    }
  }

  lemma FillAroundFills(m0: Grid, start: IVector2, bg: Cell, fill: Cell, exps0: seq<Explosion>,
                        grid: Grid, exps: seq<Explosion>, cur: IVector2, k: nat, queue: seq<IVector2>, filled: set<IVector2>)
    requires Rectangular(m0) && bg != fill && k < 4
    requires Filling(m0, start, bg, fill, exps0, grid, exps, queue, filled) && cur in filled
    requires FillClosed(m0, bg, filled, queue, cur, k)
    requires var n := cur.Add(Directions[k]); WithinMap(grid, n) && At(grid, n) == bg
    ensures var n := cur.Add(Directions[k]);
            && Filling(m0, start, bg, fill, exps0, Put(grid, n, fill), exps + [Blast(n)], queue + [n], filled + {n})
            && FillClosed(m0, bg, filled + {n}, queue + [n], cur, k + 1)
  {
    var n := cur.Add(Directions[k]);
    PaintAt(m0, filled, fill, n);
    assert n !in filled && At(m0, n) == bg;
    PaintThenPut(m0, filled, fill, n);
    ConnectedStep(m0, Directions, bg, start, cur, k);
    BlastsEachGrows(exps0, exps, filled, n);
  }

  lemma FillAroundSkips(m0: Grid, start: IVector2, bg: Cell, fill: Cell, exps0: seq<Explosion>,
                        grid: Grid, exps: seq<Explosion>, cur: IVector2, k: nat, queue: seq<IVector2>, filled: set<IVector2>)
    requires Rectangular(m0) && bg != fill && k < 4
    requires Filling(m0, start, bg, fill, exps0, grid, exps, queue, filled) && cur in filled
    requires FillClosed(m0, bg, filled, queue, cur, k)
    requires var n := cur.Add(Directions[k]); !(WithinMap(grid, n) && At(grid, n) == bg)
    ensures FillClosed(m0, bg, filled, queue, cur, k + 1)
  {
    var n := cur.Add(Directions[k]);
    if WithinMap(m0, n) {
      PaintAt(m0, filled, fill, n);
    }
  }

  lemma {:induction false} FillAroundKeeps(m0: Grid, start: IVector2, bg: Cell, fill: Cell, exps0: seq<Explosion>,
                                           grid: Grid, exps: seq<Explosion>, cur: IVector2, k: nat, queue: seq<IVector2>,
                                           filled: set<IVector2>)
    returns (filled': set<IVector2>)
    requires Rectangular(m0) && bg != fill && k <= 4
    requires Filling(m0, start, bg, fill, exps0, grid, exps, queue, filled) && cur in filled
    requires FillClosed(m0, bg, filled, queue, cur, k)
    ensures Rectangular(grid)
    ensures var r := FillAround(grid, exps, cur, k, queue, bg, fill);
            Filling(m0, start, bg, fill, exps0, r.0, r.1, r.2, filled') && FillClosed(m0, bg, filled', r.2, cur, 4)
    decreases 4 - k
  {
    if k == 4 {
      filled' := filled;
    } else {
      var n := cur.Add(Directions[k]);
      if WithinMap(grid, n) && At(grid, n) == bg {
        FillAroundFills(m0, start, bg, fill, exps0, grid, exps, cur, k, queue, filled);
        filled' := FillAroundKeeps(m0, start, bg, fill, exps0, Put(grid, n, fill), exps + [Blast(n)], cur, k + 1,
                                   queue + [n], filled + {n});
      } else {
        FillAroundSkips(m0, start, bg, fill, exps0, grid, exps, cur, k, queue, filled);
        filled' := FillAroundKeeps(m0, start, bg, fill, exps0, grid, exps, cur, k + 1, queue, filled);
      }
    }
  }

  lemma {:induction false} FillLoopKeeps(m0: Grid, start: IVector2, bg: Cell, fill: Cell, exps0: seq<Explosion>,
                                         grid: Grid, exps: seq<Explosion>, queue: seq<IVector2>, filled: set<IVector2>)
    returns (filled': set<IVector2>)
    requires Rectangular(m0) && bg != fill
    requires Filling(m0, start, bg, fill, exps0, grid, exps, queue, filled)
    requires FillClosed(m0, bg, filled, queue, start, 4)
    ensures Rectangular(grid)
    ensures var r := FillLoop(grid, exps, queue, bg, fill);
            Filling(m0, start, bg, fill, exps0, r.0, r.1, [], filled') && FillClosed(m0, bg, filled', [], start, 4)
    decreases CellsOf(grid, bg), |queue|
  {
    if |queue| == 0 {
      filled' := filled;
    } else {
      var cur, rest := queue[0], queue[1..];
      FillClosedPops(m0, bg, filled, queue, start);
      assert Filling(m0, start, bg, fill, exps0, grid, exps, rest, filled) && cur in filled;
      var mid := FillAroundKeeps(m0, start, bg, fill, exps0, grid, exps, cur, 0, rest, filled);
      var s := FillAround(grid, exps, cur, 0, rest, bg, fill);
      FillClosedDone(m0, bg, mid, s.2, cur, start);
      filled' := FillLoopKeeps(m0, start, bg, fill, exps0, s.0, s.1, s.2, mid);
    }
  }

  /** Popping the oldest queued cell makes it the cell whose neighbours are filled next. */
  lemma FillClosedPops(m0: Grid, bg: Cell, filled: set<IVector2>, queue: seq<IVector2>, start: IVector2)
    requires Rectangular(m0) && |queue| > 0 && FillClosed(m0, bg, filled, queue, start, 4)
    ensures FillClosed(m0, bg, filled, queue[1..], queue[0], 0)
    ensures forall p :: p in queue[1..] ==> p in queue
  {
    assert queue == [queue[0]] + queue[1..];
    forall p, j | p in filled && p !in queue[1..] && 0 <= j < 4 && (p == queue[0] ==> j < 0)
                  && WithinMap(m0, p.Add(Directions[j])) && At(m0, p.Add(Directions[j])) == bg
      ensures p.Add(Directions[j]) in filled
    {
      assert p !in queue;
    }
  }

  /** Once all four neighbours of a cell are done, which cell it was no longer matters. */
  lemma FillClosedDone(m0: Grid, bg: Cell, filled: set<IVector2>, queue: seq<IVector2>, cur: IVector2, other: IVector2)
    requires Rectangular(m0) && FillClosed(m0, bg, filled, queue, cur, 4)
    ensures FillClosed(m0, bg, filled, queue, other, 4)
  {
  }

  lemma FillStarts(a: Arena, start: IVector2, bg: Cell, fill: Cell)
    requires Rectangular(a.grid) && WithinMap(a.grid, start)
    ensures Filling(a.grid, start, bg, fill, a.explosions, Put(a.grid, start, fill), a.explosions + [Blast(start)],
                    [start], {start})
    ensures FillClosed(a.grid, bg, {start}, [start], start, 4)
  {
    var none: set<IVector2> := {};
    assert Put(a.grid, start, fill) == Paint(a.grid, {start}, fill) by {
      PaintThenPut(a.grid, none, fill, start);
      PaintNothing(a.grid, fill);
      assert none + {start} == {start};
    }
    ConnectedStart(a.grid, Directions, bg, start);
    assert BlastsEach(a.explosions, a.explosions, none) by {
      assert a.explosions[..|a.explosions|] == a.explosions;
    }
    BlastsEachGrows(a.explosions, a.explosions, none, start);
    assert none + {start} == {start};
  }

  /**
   * A flood fill from a start inside the map paints exactly the start and the `bg`
   * cells 4-connected to it through `bg` cells, leaves every other cell as it was, and
   * adds one fresh blast for each painted cell and no other.
   */
  lemma FloodFillPaintsRegion(a: Arena, start: IVector2, bg: Cell, fill: Cell)
    requires Rectangular(a.grid) && |a.grid| > 0 && bg != fill && WithinMap(a.grid, start)
    ensures var r := FloodFill(a, start, bg, fill);
            && r.grid == Paint(a.grid, Region(a.grid, Directions, bg, start), fill)
            && BlastsEach(a.explosions, r.explosions, Region(a.grid, Directions, bg, start))
  {
    var m0 := a.grid;
    var g1 := Put(m0, start, fill);
    var exps1 := a.explosions + [Blast(start)];
    FillStarts(a, start, bg, fill);
    var filled := FillLoopKeeps(m0, start, bg, fill, a.explosions, g1, exps1, [start], {start});
    FilledIsRegion(m0, start, bg, filled);
  }

  /** A finished fill has filled the whole region and nothing else. */
  lemma FilledIsRegion(m0: Grid, start: IVector2, bg: Cell, filled: set<IVector2>)
    requires Rectangular(m0) && start in filled
    requires forall p :: p in filled ==> WithinMap(m0, p) && Connected(m0, Directions, bg, start, p)
    requires FillClosed(m0, bg, filled, [], start, 4)
    ensures filled == Region(m0, Directions, bg, start)
  {
    forall q, k | q in filled && 0 <= k < |Directions| && WithinMap(m0, q.Add(Directions[k]))
                  && At(m0, q.Add(Directions[k])) == bg
      ensures q.Add(Directions[k]) in filled
    {
      assert q !in [];
    }
    ClosedSetContainsRegion(m0, Directions, bg, start, filled);
    forall p | p in filled
      ensures p in Region(m0, Directions, bg, start)
    {
      CellsAreWithinMap(m0, p);
    }
  }

  /** A flood fill from a `bg` cell changes only `bg` cells, and only into `fill`. */
  lemma FloodFillTurnsOnlyBackground(a: Arena, start: IVector2, bg: Cell, fill: Cell, p: IVector2)
    requires Rectangular(a.grid) && |a.grid| > 0 && bg != fill && WithinMap(a.grid, start) && At(a.grid, start) == bg
    requires WithinMap(a.grid, p)
    ensures var r := FloodFill(a, start, bg, fill);
            Rectangular(r.grid) && WithinMap(r.grid, p)
            && (At(r.grid, p) == At(a.grid, p) || (At(r.grid, p) == fill && At(a.grid, p) == bg))
  {
    FloodFillPaintsRegion(a, start, bg, fill);
    PaintAt(a.grid, Region(a.grid, Directions, bg, start), fill, p);
    if p in Region(a.grid, Directions, bg, start) && p != start {
      ConnectedHolds(a.grid, Directions, bg, start, p);
    }
  }

  // ---------------------------------------------------------------- explode

  /** The cells a ray from `origin` in direction `d` visits, at distances `1..BlastRange`. */
  function RayPath(origin: IVector2, d: IVector2): (r: seq<IVector2>)
    ensures |r| == BlastRange
  {
    seq(BlastRange, i requires 0 <= i < BlastRange => origin.Add(d.Mul(i + 1)))
  }

  /** Where a ray stopped: at the barricade `breach`, which is then flood-filled, or anywhere else. */
  datatype Walked = Walked(arena: Arena, breach: Option<IVector2>)

  /**
   * The ray along `cells` from index `i` on: each cell that is not a wall, a door or a
   * barricade is blasted and damaged; the ray stops outside the map, at a wall or door,
   * or at a barricade, which it reports.
   */
  function Walk(a: Arena, cells: seq<IVector2>, i: nat, now: real): (w: Walked)
    requires Rectangular(a.grid) && |a.grid| > 0 && i <= |cells|
    ensures Rectangular(w.arena.grid) && SameShape(a.grid, w.arena.grid)
    decreases |cells| - i
  {
    if i == |cells| then Walked(a, None)
    else
      var pos := cells[i];
      if !WithinMap(a.grid, pos) then Walked(a, None)
      else if At(a.grid, pos) == CellWall || At(a.grid, pos) == CellDoor then Walked(a, None)
      else if At(a.grid, pos) == CellBarricade then Walked(a, Some(pos))
      else Walk(Blasted(a, pos, now), cells, i + 1, now)
  }

  /** The arena after the ray blasts `pos`: one more explosion there, and damage at it. */
  function Blasted(a: Arena, pos: IVector2, now: real): (r: Arena)
    requires Rectangular(a.grid) && WithinMap(a.grid, pos)
    ensures Rectangular(r.grid) && SameShape(a.grid, r.grid)
  {
    DamageAt(a.(explosions := a.explosions + [Blast(pos)], grid := Put(a.grid, pos, CellExplosion)), pos, now)
  }

  /** One ray of a blast: the walk, then the flood fill of a barricade it stopped at. */
  function Ray(a: Arena, origin: IVector2, d: IVector2, now: real): (r: Arena)
    requires Rectangular(a.grid) && |a.grid| > 0
    ensures Rectangular(r.grid) && SameShape(a.grid, r.grid)
  {
    var w := Walk(a, RayPath(origin, d), 0, now);
    match w.breach
    case None => w.arena
    case Some(pos) => FloodFill(w.arena, pos, CellBarricade, CellExplosion)
  }

  /** The rays in the directions `k..3`, one after the other. */
  function Rays(a: Arena, origin: IVector2, k: nat, now: real): (r: Arena)
    requires Rectangular(a.grid) && |a.grid| > 0 && k <= 4
    ensures Rectangular(r.grid) && SameShape(a.grid, r.grid)
    decreases 4 - k
  {
    if k == 4 then a else Rays(Ray(a, origin, Directions[k], now), origin, k + 1, now)
  }

  /** `Explode`: blast the origin, whatever it holds, and damage there; then the four rays. */
  function Explode(a: Arena, origin: IVector2, now: real): (r: Arena)
    requires Rectangular(a.grid) && WithinMap(a.grid, origin)
    ensures Rectangular(r.grid) && SameShape(a.grid, r.grid)
  {
    Rays(Blasted(a, origin, now), origin, 0, now)
  }

  /** The up to `BlastRange` cells on each side of `origin` along its row and its column. */
  predicate OnCross(origin: IVector2, p: IVector2) {
    || (p.x == origin.x && p.y != origin.y && origin.y - BlastRange <= p.y <= origin.y + BlastRange)
    || (p.y == origin.y && p.x != origin.x && origin.x - BlastRange <= p.x <= origin.x + BlastRange)
  }

  /** The cell at distance `i` from `origin` in direction `k`. */
  function RayCell(origin: IVector2, k: nat, i: int): IVector2
    requires k < 4
  {
    origin.Add(Directions[k].Mul(i))
  }

  /** The path of a ray lies on the cross of its origin and visits each cell once. */
  lemma RayPathOnCross(origin: IVector2, k: nat)
    requires k < 4
    ensures forall i :: 0 <= i < BlastRange ==> RayPath(origin, Directions[k])[i] == RayCell(origin, k, i + 1)
    ensures OnCrossAll(origin, RayPath(origin, Directions[k]))
    ensures Distinct(RayPath(origin, Directions[k]))
  {
  }

  predicate OnCrossAll(origin: IVector2, cells: seq<IVector2>) {
    forall i :: 0 <= i < |cells| ==> OnCross(origin, cells[i])
  }

  predicate Distinct(cells: seq<IVector2>) {
    forall i, j :: 0 <= i < j < |cells| ==> cells[i] != cells[j]
  }

  /**
   * How a blast may leave a cell that held `c`: as it was, or turned into an explosion
   * when the cell is on the blast's cross or was a barricade. Walls and doors never change.
   */
  predicate MayBecome(c: Cell, c': Cell, onCross: bool) {
    c' == c || (c' == CellExplosion && c != CellWall && c != CellDoor && (onCross || c == CellBarricade))
  }

  /** A cell a ray passes through. */
  predicate Clear(c: Cell) {
    c != CellWall && c != CellDoor && c != CellBarricade
  }

  /**
   * What the rays of a blast from `origin` may have done between `a0` and `a`: cells
   * changed only as `MayBecome` allows, the player killed only when on the cross, eepers
   * only flagged as damaged, explosions only added.
   */
  ghost predicate Spread(a0: Arena, a: Arena, origin: IVector2, now: real)
    requires Rectangular(a0.grid)
  {
    && Rectangular(a.grid) && SameShape(a0.grid, a.grid)
    && (forall p :: WithinMap(a0.grid, p) ==> MayBecome(At(a0.grid, p), a.grid[p.y][p.x], OnCross(origin, p)))
    && (a.player == a0.player || (a.player == Killed(a0.player, now) && OnCross(origin, a0.player.position)))
    && |a.eepers| == |a0.eepers|
    && (forall i :: 0 <= i < |a0.eepers| ==> a.eepers[i] == a0.eepers[i] || a.eepers[i] == a0.eepers[i].(damaged := true))
    && |a0.explosions| <= |a.explosions| && a.explosions[..|a0.explosions|] == a0.explosions
  }

  lemma SpreadRefl(a: Arena, origin: IVector2, now: real)
    requires Rectangular(a.grid)
    ensures Spread(a, a, origin, now)
  {
  }

  lemma SpreadTrans(a0: Arena, a1: Arena, a2: Arena, origin: IVector2, now: real)
    requires Rectangular(a0.grid) && Spread(a0, a1, origin, now) && Spread(a1, a2, origin, now)
    ensures Spread(a0, a2, origin, now)
  {
    forall p | WithinMap(a0.grid, p)
      ensures MayBecome(At(a0.grid, p), a2.grid[p.y][p.x], OnCross(origin, p))
    {
      assert WithinMap(a1.grid, p);
    }
    if a1.player != a0.player {
      KillPlayerIsIdempotent(a0.player, now, now);
    }
    assert a2.explosions[..|a0.explosions|] == a2.explosions[..|a1.explosions|][..|a0.explosions|];
  }

  /** One step of a ray onto a cell of the cross that does not stop it. */
  lemma SpreadBlastStep(a: Arena, origin: IVector2, pos: IVector2, now: real)
    requires Rectangular(a.grid) && WithinMap(a.grid, pos) && OnCross(origin, pos) && Clear(At(a.grid, pos))
    ensures Spread(a, Blasted(a, pos, now), origin, now)
  {
    var blasted := a.(explosions := a.explosions + [Blast(pos)], grid := Put(a.grid, pos, CellExplosion));
    assert blasted.explosions[..|a.explosions|] == a.explosions;
    forall p | WithinMap(a.grid, p)
      ensures MayBecome(At(a.grid, p), blasted.grid[p.y][p.x], OnCross(origin, p))
    {
      assert blasted.grid[p.y][p.x] == At(blasted.grid, p);
    }
  }

  /** A ray meeting a barricade flood-fills it with explosions. */
  lemma SpreadFlood(a: Arena, origin: IVector2, pos: IVector2, now: real)
    requires Rectangular(a.grid) && |a.grid| > 0 && WithinMap(a.grid, pos) && At(a.grid, pos) == CellBarricade
    ensures Spread(a, FloodFill(a, pos, CellBarricade, CellExplosion), origin, now)
  {
    var r := FloodFill(a, pos, CellBarricade, CellExplosion);
    forall p | WithinMap(a.grid, p)
      ensures MayBecome(At(a.grid, p), r.grid[p.y][p.x], OnCross(origin, p))
    {
      FloodFillTurnsOnlyBackground(a, pos, CellBarricade, CellExplosion, p);
    }
    FloodFillPaintsRegion(a, pos, CellBarricade, CellExplosion);
  }

  /** A walk along the cross spreads, and a barricade it reports is still a barricade where it stopped. */
  lemma {:induction false} WalkSpreads(a: Arena, origin: IVector2, cells: seq<IVector2>, i: nat, now: real)
    requires Rectangular(a.grid) && |a.grid| > 0 && i <= |cells| && OnCrossAll(origin, cells)
    ensures Spread(a, Walk(a, cells, i, now).arena, origin, now)
    ensures Breached(Walk(a, cells, i, now))
    decreases |cells| - i
  {
    if i == |cells| {
      SpreadRefl(a, origin, now);
    } else {
      var pos := cells[i];
      if !WithinMap(a.grid, pos) || At(a.grid, pos) == CellWall || At(a.grid, pos) == CellDoor || At(a.grid, pos) == CellBarricade {
        SpreadRefl(a, origin, now);
      } else {
        var next := Blasted(a, pos, now);
        WalkSpreads(next, origin, cells, i + 1, now);
        SpreadBlastStep(a, origin, pos, now);
        SpreadTrans(a, next, Walk(next, cells, i + 1, now).arena, origin, now);
      }
    }
  }

  /** A barricade reported by a walk is in the map and still a barricade. */
  predicate Breached(w: Walked)
    requires Rectangular(w.arena.grid)
  {
    w.breach.Some? ==> WithinMap(w.arena.grid, w.breach.value) && At(w.arena.grid, w.breach.value) == CellBarricade
  }

  lemma RaySpreads(a: Arena, origin: IVector2, k: nat, now: real)
    requires Rectangular(a.grid) && |a.grid| > 0 && k < 4
    ensures Spread(a, Ray(a, origin, Directions[k], now), origin, now)
  {
    var w := Walk(a, RayPath(origin, Directions[k]), 0, now);
    RayPathOnCross(origin, k);
    WalkSpreads(a, origin, RayPath(origin, Directions[k]), 0, now);
    if w.breach.Some? {
      SpreadFlood(w.arena, origin, w.breach.value, now);
      SpreadTrans(a, w.arena, FloodFill(w.arena, w.breach.value, CellBarricade, CellExplosion), origin, now);
    }
  }

  lemma {:induction false} RaysSpread(a: Arena, origin: IVector2, k: nat, now: real)
    requires Rectangular(a.grid) && |a.grid| > 0 && k <= 4
    ensures Spread(a, Rays(a, origin, k, now), origin, now)
    decreases 4 - k
  {
    if k == 4 {
      SpreadRefl(a, origin, now);
    } else {
      var next := Ray(a, origin, Directions[k], now);
      RaySpreads(a, origin, k, now);
      RaysSpread(next, origin, k + 1, now);
      SpreadTrans(a, next, Rays(next, origin, k + 1, now), origin, now);
    }
  }

  /**
   * The shape of a blast: the origin becomes an explosion whatever it held and kills a
   * player standing there; every other cell either stays as it was or becomes an
   * explosion, and only when it lies within `BlastRange` of the origin along its row or
   * column or was a barricade, so walls and doors (other than the origin) never change.
   * The player is killed only on the origin or that cross, eepers are only flagged as
   * damaged, and explosions are only added, the origin's first.
   */
  lemma ExplodeShape(a: Arena, origin: IVector2, now: real)
    requires Rectangular(a.grid) && WithinMap(a.grid, origin)
    ensures var r := Explode(a, origin, now);
            && At(r.grid, origin) == CellExplosion
            && (forall p :: WithinMap(a.grid, p) && p != origin ==> MayBecome(At(a.grid, p), At(r.grid, p), OnCross(origin, p)))
            && (a.player.position == origin ==> r.player == Killed(a.player, now))
            && (r.player == a.player || (r.player == Killed(a.player, now) &&
                                         (a.player.position == origin || OnCross(origin, a.player.position))))
            && |r.eepers| == |a.eepers|
            && (forall i :: 0 <= i < |a.eepers| ==> r.eepers[i] == a.eepers[i] || r.eepers[i] == a.eepers[i].(damaged := true))
            && |r.explosions| > |a.explosions| && r.explosions[..|a.explosions| + 1] == a.explosions + [Blast(origin)]
  {
    var a1 := Blasted(a, origin, now);
    var r := Explode(a, origin, now);
    RaysSpread(a1, origin, 0, now);
    assert WithinMap(a1.grid, origin) && At(a1.grid, origin) == CellExplosion;
    forall p | WithinMap(a.grid, p) && p != origin
      ensures MayBecome(At(a.grid, p), At(r.grid, p), OnCross(origin, p))
    {
      assert WithinMap(a1.grid, p) && At(a1.grid, p) == At(a.grid, p);
    }
    if a1.player != a.player {
      KillPlayerIsIdempotent(a.player, now, now);
    }
    forall i | 0 <= i < |a.eepers|
      ensures r.eepers[i] == a.eepers[i] || r.eepers[i] == a.eepers[i].(damaged := true)
    {
    }
    assert r.explosions[..|a.explosions| + 1] == r.explosions[..|a1.explosions|];
  }

  /** The cells `cells[i..j]` are in the map and let a ray through. */
  predicate ClearAlong(g: Grid, cells: seq<IVector2>, i: int, j: int)
    requires Rectangular(g) && 0 <= i && j <= |cells|
  {
    forall l :: i <= l < j ==> WithinMap(g, cells[l]) && Clear(At(g, cells[l]))
  }

  /** The cells `cells[i..j]` are in the map and explosions. */
  predicate BlastedAlong(g: Grid, cells: seq<IVector2>, i: int, j: int)
    requires Rectangular(g) && 0 <= i && j <= |cells|
  {
    forall l :: i <= l < j ==> WithinMap(g, cells[l]) && At(g, cells[l]) == CellExplosion
  }

  /** A walk along distinct cells of the cross passes through clear cells and turns each of them into an explosion. */
  lemma {:induction false} WalkReaches(a: Arena, origin: IVector2, cells: seq<IVector2>, i: nat, j: nat, now: real)
    requires Rectangular(a.grid) && |a.grid| > 0 && i <= j <= |cells| && OnCrossAll(origin, cells) && Distinct(cells)
    requires ClearAlong(a.grid, cells, i, j)
    ensures BlastedAlong(Walk(a, cells, i, now).arena.grid, cells, i, j)
    decreases j - i
  {
    if i < j {
      var next := Blasted(a, cells[i], now);
      var rest := Walk(next, cells, i + 1, now).arena;
      WalkSpreads(next, origin, cells, i + 1, now);
      SpreadKeepsClear(next, rest, origin, now, cells[i]);
      forall l | i + 1 <= l < j
        ensures WithinMap(next.grid, cells[l]) && Clear(At(next.grid, cells[l]))
      {
      }
      WalkReaches(next, origin, cells, i + 1, j, now);
    }
  }

  /** Cells that are clear before a spread are clear after it, and explosions stay explosions. */
  lemma SpreadKeepsClear(a0: Arena, a: Arena, origin: IVector2, now: real, p: IVector2)
    requires Rectangular(a0.grid) && Spread(a0, a, origin, now) && WithinMap(a0.grid, p)
    ensures WithinMap(a.grid, p)
    ensures Clear(At(a0.grid, p)) ==> Clear(At(a.grid, p))
    ensures At(a0.grid, p) == CellExplosion ==> At(a.grid, p) == CellExplosion
  {
  }

  /** Clear cells stay clear, and blasted cells stay blasted, over a spread. */
  lemma SpreadKeepsAlong(a0: Arena, a: Arena, origin: IVector2, cells: seq<IVector2>, i: int, j: int, now: real)
    requires Rectangular(a0.grid) && 0 <= i && j <= |cells| && Spread(a0, a, origin, now)
    ensures ClearAlong(a0.grid, cells, i, j) ==> ClearAlong(a.grid, cells, i, j)
    ensures BlastedAlong(a0.grid, cells, i, j) ==> BlastedAlong(a.grid, cells, i, j)
  {
    forall l | i <= l < j && WithinMap(a0.grid, cells[l])
      ensures WithinMap(a.grid, cells[l])
      ensures Clear(At(a0.grid, cells[l])) ==> Clear(At(a.grid, cells[l]))
      ensures At(a0.grid, cells[l]) == CellExplosion ==> At(a.grid, cells[l]) == CellExplosion
    {
      SpreadKeepsClear(a0, a, origin, now, cells[l]);
    }
  }

  /** A ray turns the clear cells at distances `1..j` into explosions, whatever a barricade beyond them does. */
  lemma RayReaches(a: Arena, origin: IVector2, k: nat, j: nat, now: real)
    requires Rectangular(a.grid) && |a.grid| > 0 && k < 4 && j <= BlastRange
    requires ClearAlong(a.grid, RayPath(origin, Directions[k]), 0, j)
    ensures BlastedAlong(Ray(a, origin, Directions[k], now).grid, RayPath(origin, Directions[k]), 0, j)
  {
    var cells := RayPath(origin, Directions[k]);
    var w := Walk(a, cells, 0, now);
    RayPathOnCross(origin, k);
    WalkReaches(a, origin, cells, 0, j, now);
    WalkSpreads(a, origin, cells, 0, now);
    if w.breach.Some? {
      SpreadFlood(w.arena, origin, w.breach.value, now);
      SpreadKeepsAlong(w.arena, FloodFill(w.arena, w.breach.value, CellBarricade, CellExplosion), origin, cells, 0, j, now);
    }
  }

  /** The rays from direction `k0` on turn the clear cells of direction `k` into explosions. */
  lemma {:induction false} RaysReach(a: Arena, origin: IVector2, k0: nat, k: nat, j: nat, now: real)
    requires Rectangular(a.grid) && |a.grid| > 0 && k0 <= k < 4 && j <= BlastRange
    requires ClearAlong(a.grid, RayPath(origin, Directions[k]), 0, j)
    ensures BlastedAlong(Rays(a, origin, k0, now).grid, RayPath(origin, Directions[k]), 0, j)
    decreases 4 - k0
  {
    var cells := RayPath(origin, Directions[k]);
    var next := Ray(a, origin, Directions[k0], now);
    RaySpreads(a, origin, k0, now);
    var r := Rays(next, origin, k0 + 1, now);
    RaysSpread(next, origin, k0 + 1, now);
    if k0 < k {
      SpreadKeepsAlong(a, next, origin, cells, 0, j, now);
      RaysReach(next, origin, k0 + 1, k, j, now);
    } else {
      RayReaches(a, origin, k, j, now);
      SpreadKeepsAlong(next, r, origin, cells, 0, j, now);
    }
  }

  /**
   * The reach of a blast: in each direction, the cells up to distance `j <= BlastRange`
   * all become explosions when all of them are in the map and none is a wall, a door or
   * a barricade.
   */
  lemma ExplodeReaches(a: Arena, origin: IVector2, k: nat, j: nat, now: real)
    requires Rectangular(a.grid) && WithinMap(a.grid, origin) && k < 4 && j <= BlastRange
    requires forall l :: 1 <= l <= j ==> WithinMap(a.grid, RayCell(origin, k, l)) && Clear(At(a.grid, RayCell(origin, k, l)))
    ensures forall l :: 1 <= l <= j ==> At(Explode(a, origin, now).grid, RayCell(origin, k, l)) == CellExplosion
  {
    var cells := RayPath(origin, Directions[k]);
    var a1 := Blasted(a, origin, now);
    RayPathOnCross(origin, k);
    forall l | 0 <= l < j
      ensures WithinMap(a1.grid, cells[l]) && Clear(At(a1.grid, cells[l]))
    {
      assert cells[l] == RayCell(origin, k, l + 1);
    }
    RaysReach(a1, origin, 0, k, j, now);
    forall l | 1 <= l <= j
      ensures At(Explode(a, origin, now).grid, RayCell(origin, k, l)) == CellExplosion
    {
      assert cells[l - 1] == RayCell(origin, k, l);
    }
  }

  // ---------------------------------------------------------------- plant

  /** `PlantBomb`: with a bomb in hand, one fewer in hand and a fresh bomb at the player's feet. */
  function Plant(p: Player, bombs: seq<Bomb>): (Player, seq<Bomb>) {
    if p.bombs > 0 then (p.(bombs := p.bombs - 1), bombs + [Bomb(p.position, BombCountdown)]) else (p, bombs)
  }

  /**
   * Planting moves a bomb from the hand to the map: the bombs in hand plus the bombs
   * on the map stay the same, the hand never goes below zero, the new bomb lies at the
   * player's position with the full countdown, and the bombs already planted are kept.
   */
  lemma PlantMovesOneBomb(p: Player, bombs: seq<Bomb>)
    ensures var (p', bombs') := Plant(p, bombs);
            && p'.bombs + |bombs'| == p.bombs + |bombs|
            && (p.bombs >= 0 ==> p'.bombs >= 0)
            && bombs'[..|bombs|] == bombs
            && (p.bombs > 0 <==> |bombs'| == |bombs| + 1)
            && (|bombs'| > |bombs| ==> bombs'[|bombs|] == Bomb(p.position, BombCountdown))
            && p'.(bombs := p.bombs) == p
  {
  }

  // ---------------------------------------------------------------- update bombs

  /** The eepers with last turn's damage flags cleared. */
  function ClearDamaged(es: seq<Eeper>): (r: seq<Eeper>)
    ensures |r| == |es|
    ensures forall i :: 0 <= i < |es| ==> !r[i].damaged && r[i].(damaged := es[i].damaged) == es[i]
  {
    seq(|es|, i requires 0 <= i < |es| => es[i].(damaged := false))
  }

  /** The first `n` bombs that would go off on this countdown lie inside the map. */
  predicate FusesBelow(g: Grid, bs: seq<Bomb>, n: nat) {
    forall i :: 0 <= i < n && i < |bs| && bs[i].countdown - 1 == 0 ==> WithinMap(g, bs[i].position)
  }

  /** The bombs that would go off on this countdown lie inside the map. */
  predicate FusesInMap(g: Grid, bs: seq<Bomb>) {
    FusesBelow(g, bs, |bs|)
  }

  /** A blast keeps the shape of the map, so bombs inside it stay inside. */
  lemma ExplodeKeepsFuses(a: Arena, origin: IVector2, bs: seq<Bomb>, n: nat, now: real)
    requires Rectangular(a.grid) && WithinMap(a.grid, origin) && FusesBelow(a.grid, bs, n)
    ensures FusesBelow(Explode(a, origin, now).grid, bs, n)
  {
    var g := Explode(a, origin, now).grid;
    assert |g| == |a.grid| && |g[0]| == |a.grid[0]|;
  }

  /**
   * The countdown loop of `UpdateBombs`: the first `n` bombs still to count down on
   * arena `a`, from the last to the first, with the bombs `done` already kept after
   * them. Each bomb ticks once; one that reaches zero explodes and is removed, the
   * others stay in order.
   */
  function CountDown(a: Arena, bs: seq<Bomb>, n: nat, done: seq<Bomb>, now: real): (r: (Arena, seq<Bomb>))
    requires n <= |bs| && Rectangular(a.grid) && FusesBelow(a.grid, bs, n)
    ensures Rectangular(r.0.grid) && SameShape(a.grid, r.0.grid)
    decreases n
  {
    if n == 0 then (a, done)
    else
      var b := bs[n - 1].(countdown := bs[n - 1].countdown - 1);
      if b.countdown == 0 then CountDown(Explode(a, b.position, now), bs, n - 1, done, now)
      else CountDown(a, bs, n - 1, [b] + done, now)
  }

  /** The bombs left after one countdown, defined front to back: each ticked once, those at zero gone. */
  function Ticked(bs: seq<Bomb>): seq<Bomb>
    decreases |bs|
  {
    if |bs| == 0 then []
    else
      var b := bs[0].(countdown := bs[0].countdown - 1);
      (if b.countdown == 0 then [] else [b]) + Ticked(bs[1..])
  }

  lemma {:induction false} TickedOfSnoc(bs: seq<Bomb>, b: Bomb)
    ensures Ticked(bs + [b]) == Ticked(bs) + Ticked([b])
    decreases |bs|
  {
    if |bs| == 0 {
      assert bs + [b] == [b];
    } else {
      assert (bs + [b])[1..] == bs[1..] + [b];
      TickedOfSnoc(bs[1..], b);
    }
  }

  /**
   * The bombs the countdown keeps are exactly the ticked bombs that have not reached
   * zero, in their original order, whatever the blasts do to the map.
   */
  lemma {:induction false} CountDownKeeps(a: Arena, bs: seq<Bomb>, n: nat, done: seq<Bomb>, now: real)
    requires n <= |bs| && Rectangular(a.grid) && FusesBelow(a.grid, bs, n)
    ensures CountDown(a, bs, n, done, now).1 == Ticked(bs[..n]) + done
    decreases n
  {
    if n == 0 {
      assert bs[..0] == [] && CountDown(a, bs, n, done, now).1 == done;
    } else {
      var a', kept := CountDownStep(a, bs, n, done, now);
      CountDownKeeps(a', bs, n - 1, kept + done, now);
      TickedPrefix(bs, n);
      AppendAssociates(Ticked(bs[..n - 1]), kept, done);
    }
  }

  /** Counting down one more bomb of a prefix appends what happens to that bomb. */
  lemma TickedPrefix(bs: seq<Bomb>, n: nat)
    requires 0 < n <= |bs|
    ensures Ticked(bs[..n]) == Ticked(bs[..n - 1])
              + if bs[n - 1].countdown - 1 == 0 then [] else [bs[n - 1].(countdown := bs[n - 1].countdown - 1)]
  {
    var b := bs[n - 1];
    assert bs[..n] == bs[..n - 1] + [b];
    TickedOfSnoc(bs[..n - 1], b);
    assert [b][1..] == [];
  }

  lemma AppendAssociates<T>(x: seq<T>, y: seq<T>, z: seq<T>)
    ensures x + y + z == x + (y + z)
  {
  }

  /** Bombs whose countdowns lie in `1..BombCountdown`. */
  predicate Armed(bs: seq<Bomb>) {
    forall i :: 0 <= i < |bs| ==> 1 <= bs[i].countdown <= BombCountdown
  }

  /** A freshly planted bomb ticks down to 2, then to 1, and goes off on the third countdown. */
  lemma PlantedBombFiresOnThirdCountdown(p: IVector2)
    ensures Ticked([Bomb(p, BombCountdown)]) == [Bomb(p, 2)]
    ensures Ticked(Ticked([Bomb(p, BombCountdown)])) == [Bomb(p, 1)]
    ensures Ticked(Ticked(Ticked([Bomb(p, BombCountdown)]))) == []
    ensures Bomb(p, 1).countdown - 1 == 0 && Bomb(p, 2).countdown - 1 != 0 && Bomb(p, BombCountdown).countdown - 1 != 0
  {
    assert [Bomb(p, BombCountdown)][1..] == [] && [Bomb(p, 2)][1..] == [] && [Bomb(p, 1)][1..] == [];
  }

  /** Armed bombs stay armed, and the countdown never adds a bomb. */
  lemma {:induction false} TickedStaysArmed(bs: seq<Bomb>)
    requires Armed(bs)
    ensures Armed(Ticked(bs)) && |Ticked(bs)| <= |bs|
    decreases |bs|
  {
    if |bs| > 0 {
      TickedStaysArmed(bs[1..]);
    }
  }

  /** A bomb that does not reach zero stays, one tick lower. */
  lemma {:induction false} TickedKeepsUnfired(bs: seq<Bomb>)
    ensures forall i :: 0 <= i < |bs| && bs[i].countdown - 1 != 0 ==> bs[i].(countdown := bs[i].countdown - 1) in Ticked(bs)
    decreases |bs|
  {
    if |bs| > 0 {
      TickedKeepsUnfired(bs[1..]);
      forall i | 0 <= i < |bs| && bs[i].countdown - 1 != 0
        ensures bs[i].(countdown := bs[i].countdown - 1) in Ticked(bs)
      {
        if i > 0 {
          assert bs[i] == bs[1..][i - 1];
        }
      }
    }
  }

  /** Every bomb left after the countdown is a bomb from before, one tick lower, that did not reach zero. */
  lemma {:induction false} TickedComesFromBombs(bs: seq<Bomb>)
    ensures forall c :: c in Ticked(bs) ==> c.countdown != 0 && c.(countdown := c.countdown + 1) in bs
    decreases |bs|
  {
    if |bs| > 0 {
      TickedComesFromBombs(bs[1..]);
      forall c | c in Ticked(bs)
        ensures c.countdown != 0 && c.(countdown := c.countdown + 1) in bs
      {
        if c in Ticked(bs[1..]) {
          assert c.(countdown := c.countdown + 1) in bs[1..];
        }
      }
    }
  }

  /**
   * What later blasts cannot undo: the map keeps its shape, the player keeps its
   * position, and a dead player stays dead.
   */
  ghost predicate Worse(a0: Arena, a: Arena)
    requires Rectangular(a0.grid)
  {
    && Rectangular(a.grid) && SameShape(a0.grid, a.grid)
    && a.player.position == a0.player.position
    && (a0.player.dead ==> a.player.dead)
    && |a.eepers| == |a0.eepers|
  }

  /** Cell `p` of the map is an explosion. */
  predicate ExplosionAt(g: Grid, p: IVector2)
  {
    Rectangular(g) && WithinMap(g, p) && At(g, p) == CellExplosion
  }

  lemma WorseTrans(a0: Arena, a1: Arena, a2: Arena)
    requires Rectangular(a0.grid) && Worse(a0, a1) && Worse(a1, a2)
    ensures Worse(a0, a2)
  {
  }

  /** A blast turns its origin into an explosion and kills a player standing there, and undoes nothing. */
  lemma ExplodeBlastsOrigin(a: Arena, origin: IVector2, now: real)
    requires Rectangular(a.grid) && WithinMap(a.grid, origin)
    ensures ExplosionAt(Explode(a, origin, now).grid, origin)
    ensures a.player.position == origin ==> Explode(a, origin, now).player.dead
    ensures Worse(a, Explode(a, origin, now))
  {
    ExplodeShape(a, origin, now);
    KillPlayerIsIdempotent(a.player, now, now);
  }

  /** A blast leaves every explosion already on the map in place. */
  lemma ExplodeKeepsExplosion(a: Arena, origin: IVector2, p: IVector2, now: real)
    requires Rectangular(a.grid) && WithinMap(a.grid, origin) && ExplosionAt(a.grid, p)
    ensures ExplosionAt(Explode(a, origin, now).grid, p)
  {
    ExplodeShape(a, origin, now);
  }

  /** With no bombs left to count down, nothing changes. */
  lemma CountDownNone(a: Arena, bs: seq<Bomb>, done: seq<Bomb>, now: real)
    requires Rectangular(a.grid)
    ensures CountDown(a, bs, 0, done, now) == (a, done)
  {
  }

  /**
   * One round of the countdown: bomb `n - 1` ticks; `a'` is the arena after its turn,
   * which undoes nothing and, when the bomb went off, has its cell blasted and a player
   * standing there dead; a bomb that did not go off joins the bombs kept.
   */
  lemma CountDownStep(a: Arena, bs: seq<Bomb>, n: nat, done: seq<Bomb>, now: real) returns (a': Arena, kept: seq<Bomb>)
    requires 0 < n <= |bs| && Rectangular(a.grid) && FusesBelow(a.grid, bs, n)
    ensures Rectangular(a'.grid) && FusesBelow(a'.grid, bs, n - 1) && Worse(a, a')
    ensures var b := bs[n - 1];
            && (b.countdown - 1 == 0 ==>
                  && kept == []
                  && ExplosionAt(a'.grid, b.position)
                  && (b.position == a.player.position ==> a'.player.dead))
            && (b.countdown - 1 != 0 ==> a' == a && kept == [b.(countdown := b.countdown - 1)])
    ensures CountDown(a, bs, n, done, now) == CountDown(a', bs, n - 1, kept + done, now)
  {
    var b := bs[n - 1];
    if b.countdown - 1 == 0 {
      a', kept := Explode(a, b.position, now), [];
      ExplodeBlastsOrigin(a, b.position, now);
      ExplodeKeepsFuses(a, b.position, bs, n - 1, now);
      assert kept + done == done;
    } else {
      a', kept := a, [b.(countdown := b.countdown - 1)];
    }
  }

  /** One round of the countdown, stating only what carries over to the next: the map's shape and the player's place. */
  lemma CountDownAdvance(a: Arena, bs: seq<Bomb>, n: nat, done: seq<Bomb>, now: real) returns (a': Arena, kept: seq<Bomb>)
    requires 0 < n <= |bs| && Rectangular(a.grid) && FusesBelow(a.grid, bs, n)
    ensures Rectangular(a'.grid) && FusesBelow(a'.grid, bs, n - 1) && a'.player.position == a.player.position
    ensures CountDown(a, bs, n, done, now) == CountDown(a', bs, n - 1, kept + done, now)
  {
    a', kept := CountDownStep(a, bs, n, done, now);
  }

  /** One round of the countdown undoes nothing. */
  lemma CountDownRoundWorse(a: Arena, bs: seq<Bomb>, n: nat, done: seq<Bomb>, now: real) returns (a': Arena, kept: seq<Bomb>)
    requires 0 < n <= |bs| && Rectangular(a.grid) && FusesBelow(a.grid, bs, n)
    ensures Rectangular(a'.grid) && FusesBelow(a'.grid, bs, n - 1) && Worse(a, a')
    ensures CountDown(a, bs, n, done, now) == CountDown(a', bs, n - 1, kept + done, now)
  {
    a', kept := CountDownStep(a, bs, n, done, now);
  }

  /** The round of a bomb that goes off: its cell is blasted, and a player standing there dies. */
  lemma CountDownFires(a: Arena, bs: seq<Bomb>, n: nat, done: seq<Bomb>, now: real) returns (a': Arena)
    requires 0 < n <= |bs| && Rectangular(a.grid) && FusesBelow(a.grid, bs, n) && bs[n - 1].countdown - 1 == 0
    ensures Rectangular(a'.grid) && FusesBelow(a'.grid, bs, n - 1)
    ensures ExplosionAt(a'.grid, bs[n - 1].position) && (bs[n - 1].position == a.player.position ==> a'.player.dead)
    ensures forall p :: ExplosionAt(a.grid, p) ==> ExplosionAt(a'.grid, p)
    ensures CountDown(a, bs, n, done, now) == CountDown(a', bs, n - 1, done, now)
  {
    a' := Explode(a, bs[n - 1].position, now);
    ExplodeBlastsOrigin(a, bs[n - 1].position, now);
    ExplodeKeepsFuses(a, bs[n - 1].position, bs, n - 1, now);
    forall p | ExplosionAt(a.grid, p) ensures ExplosionAt(a'.grid, p) {
      ExplodeKeepsExplosion(a, bs[n - 1].position, p, now);
    }
  }

  /** The countdown undoes nothing. */
  lemma {:induction false} CountDownWorse(a: Arena, bs: seq<Bomb>, n: nat, done: seq<Bomb>, now: real)
    requires n <= |bs| && Rectangular(a.grid) && FusesBelow(a.grid, bs, n)
    ensures Worse(a, CountDown(a, bs, n, done, now).0)
    decreases n
  {
    if n == 0 {
      CountDownNone(a, bs, done, now);
    } else {
      var a', kept := CountDownRoundWorse(a, bs, n, done, now);
      CountDownWorse(a', bs, n - 1, kept + done, now);
      WorseTrans(a, a', CountDown(a', bs, n - 1, kept + done, now).0);
    }
  }

  /** The countdown leaves every explosion already on the map in place. */
  lemma {:induction false} CountDownKeepsExplosion(a: Arena, bs: seq<Bomb>, n: nat, done: seq<Bomb>, p: IVector2, now: real)
    requires n <= |bs| && Rectangular(a.grid) && FusesBelow(a.grid, bs, n) && ExplosionAt(a.grid, p)
    ensures ExplosionAt(CountDown(a, bs, n, done, now).0.grid, p)
    decreases n
  {
    if n == 0 {
      CountDownNone(a, bs, done, now);
    } else {
      var a', kept := CountDownRoundKeeps(a, bs, n, done, p, now);
      CountDownKeepsExplosion(a', bs, n - 1, kept + done, p, now);
    }
  }

  /** One round of the countdown leaves an explosion in place. */
  lemma CountDownRoundKeeps(a: Arena, bs: seq<Bomb>, n: nat, done: seq<Bomb>, p: IVector2, now: real)
    returns (a': Arena, kept: seq<Bomb>)
    requires 0 < n <= |bs| && Rectangular(a.grid) && FusesBelow(a.grid, bs, n) && ExplosionAt(a.grid, p)
    ensures Rectangular(a'.grid) && FusesBelow(a'.grid, bs, n - 1) && ExplosionAt(a'.grid, p)
    ensures CountDown(a, bs, n, done, now) == CountDown(a', bs, n - 1, kept + done, now)
  {
    var b := bs[n - 1];
    if b.countdown - 1 == 0 {
      a', kept := Explode(a, b.position, now), [];
      ExplodeKeepsExplosion(a, b.position, p, now);
      ExplodeKeepsFuses(a, b.position, bs, n - 1, now);
      assert kept + done == done;
    } else {
      a', kept := a, [b.(countdown := b.countdown - 1)];
    }
  }

  /** After the countdown, the cell of the last bomb, if it went off, is an explosion. */
  lemma CountDownBlastsLast(a: Arena, bs: seq<Bomb>, n: nat, done: seq<Bomb>, now: real)
    requires 0 < n <= |bs| && Rectangular(a.grid) && FusesBelow(a.grid, bs, n) && bs[n - 1].countdown - 1 == 0
    ensures ExplosionAt(CountDown(a, bs, n, done, now).0.grid, bs[n - 1].position)
  {
    var a' := CountDownFires(a, bs, n, done, now);
    CountDownKeepsExplosion(a', bs, n - 1, done, bs[n - 1].position, now);
  }

  /** After the countdown, a player standing on the last bomb, if it went off, is dead. */
  lemma CountDownKillsOnLast(a: Arena, bs: seq<Bomb>, n: nat, done: seq<Bomb>, now: real)
    requires 0 < n <= |bs| && Rectangular(a.grid) && FusesBelow(a.grid, bs, n) && bs[n - 1].countdown - 1 == 0
    requires bs[n - 1].position == a.player.position
    ensures CountDown(a, bs, n, done, now).0.player.dead
  {
    var a' := CountDownFires(a, bs, n, done, now);
    CountDownWorse(a', bs, n - 1, done, now);
  }

  /** After the countdown, the cell of bomb `j`, if it went off, is an explosion. */
  lemma {:induction false} CountDownBlastsFuse(a: Arena, bs: seq<Bomb>, n: nat, done: seq<Bomb>, j: nat, now: real)
    requires n <= |bs| && Rectangular(a.grid) && FusesBelow(a.grid, bs, n)
    requires j < n && bs[j].countdown - 1 == 0
    ensures ExplosionAt(CountDown(a, bs, n, done, now).0.grid, bs[j].position)
    decreases n, 1
  {
    if j == n - 1 {
      CountDownBlastsLast(a, bs, n, done, now);
    } else {
      CountDownBlastsEarlier(a, bs, n, done, j, now);
    }
  }

  /** The same for a bomb `j` below the last one: its blast happens in the rounds after the first. */
  lemma {:induction false} CountDownBlastsEarlier(a: Arena, bs: seq<Bomb>, n: nat, done: seq<Bomb>, j: nat, now: real)
    requires n <= |bs| && Rectangular(a.grid) && FusesBelow(a.grid, bs, n)
    requires j < n - 1 && bs[j].countdown - 1 == 0
    ensures ExplosionAt(CountDown(a, bs, n, done, now).0.grid, bs[j].position)
    decreases n, 0
  {
    var a', kept := CountDownAdvance(a, bs, n, done, now);
    CountDownBlastsFuse(a', bs, n - 1, kept + done, j, now);
  }

  /** After the countdown, a player standing on the cell of a bomb `j` that went off is dead. */
  lemma {:induction false} CountDownKillsOnFuse(a: Arena, bs: seq<Bomb>, n: nat, done: seq<Bomb>, j: nat, now: real)
    requires n <= |bs| && Rectangular(a.grid) && FusesBelow(a.grid, bs, n)
    requires j < n && bs[j].countdown - 1 == 0 && bs[j].position == a.player.position
    ensures CountDown(a, bs, n, done, now).0.player.dead
    decreases n, 1
  {
    if j == n - 1 {
      CountDownKillsOnLast(a, bs, n, done, now);
    } else {
      CountDownKillsOnEarlier(a, bs, n, done, j, now);
    }
  }

  /** The same for a bomb `j` below the last one. */
  lemma {:induction false} CountDownKillsOnEarlier(a: Arena, bs: seq<Bomb>, n: nat, done: seq<Bomb>, j: nat, now: real)
    requires n <= |bs| && Rectangular(a.grid) && FusesBelow(a.grid, bs, n)
    requires j < n - 1 && bs[j].countdown - 1 == 0 && bs[j].position == a.player.position
    ensures CountDown(a, bs, n, done, now).0.player.dead
    decreases n, 0
  {
    var a', kept := CountDownAdvance(a, bs, n, done, now);
    CountDownKillsOnFuse(a', bs, n - 1, kept + done, j, now);
  }

  /** Where the four guards of a blasted mother spawn, relative to her position. */
  const BroodOffsets: seq<IVector2> := [IVector2(0, 0), IVector2(4, 0), IVector2(0, 4), IVector2(4, 4)]

  /** Whether the blasts of this turn reach eeper `e` while it lives. */
  predicate Hurt(e: Eeper) {
    !e.dead && e.damaged
  }

  /** The damage an eeper takes once all blasts are done. */
  function Resolve(e: Eeper): Eeper {
    if !Hurt(e) then e
    else match e.kind
      case EeperGuard =>
        var h := e.health - ExplosionDamage;
        e.(health := h, dead := h <= 0.0)
      case EeperMother => e.(dead := true)
      case EeperGnome => e.(dead := true)
      case EeperFather => e
  }

  /** The guards a hurt mother leaves behind. */
  function Brood(sp: Spawner, e: Eeper): seq<Eeper> {
    if Hurt(e) && e.kind == EeperMother then
      seq(4, j requires 0 <= j < 4 => Spawn(sp, EeperGuard, e.position.Add(BroodOffsets[j])))
    else []
  }

  /** The key a hurt gnome drops. */
  function Drop(e: Eeper): seq<Item> {
    if Hurt(e) && e.kind == EeperGnome then [Item(ItemKey, e.position, 0)] else []
  }

  function ResolveEach(es: seq<Eeper>): (r: seq<Eeper>)
    ensures |r| == |es| && forall i :: 0 <= i < |es| ==> r[i] == Resolve(es[i])
  {
    seq(|es|, i requires 0 <= i < |es| => Resolve(es[i]))
  }

  /** One round of the damage loop: eeper `i` resolved in place, its brood and its key appended. */
  function ResolveAt(sp: Spawner, es: seq<Eeper>, items: seq<Item>, i: nat): (seq<Eeper>, seq<Item>)
    requires i < |es|
  {
    (es[i := Resolve(es[i])] + Brood(sp, es[i]), items + Drop(es[i]))
  }

  /**
   * The eepers and items part-way through the damage loop: the eepers before `i`
   * resolved, `es[i..]` still as they were, then the guards spawned so far; the keys
   * dropped so far after the items.
   */
  function Resolving(sp: Spawner, es: seq<Eeper>, items: seq<Item>, i: nat): (r: (seq<Eeper>, seq<Item>))
    requires i <= |es|
    ensures |r.0| >= |es|
  {
    (ResolveEach(es[..i]) + es[i..] + Broods(sp, es[..i]), items + Drops(es[..i]))
  }

  /** The damage loop starts from the eepers and items as they are and ends with `ResolveEach`, `Broods` and `Drops`. */
  lemma ResolvingBounds(sp: Spawner, es: seq<Eeper>, items: seq<Item>)
    ensures Resolving(sp, es, items, 0) == (es, items)
    ensures Resolving(sp, es, items, |es|) == (ResolveEach(es) + Broods(sp, es), items + Drops(es))
  {
    assert es[..0] == [] && es[0..] == es && es[..|es|] == es && es[|es|..] == [];
    assert ResolveEach(es[..0]) == [] && Broods(sp, es[..0]) == [] && Drops(es[..0]) == [];
    assert ResolveEach(es[..0]) + es[0..] + Broods(sp, es[..0]) == es && items + [] == items;
    assert ResolveEach(es[..|es|]) + es[|es|..] + Broods(sp, es[..|es|]) == ResolveEach(es) + Broods(sp, es);
  }

  lemma ResolveStep(sp: Spawner, es: seq<Eeper>, items: seq<Item>, i: nat)
    requires i < |es|
    ensures var r := Resolving(sp, es, items, i);
            ResolveAt(sp, r.0, r.1, i) == Resolving(sp, es, items, i + 1)
  {
    var done, tail, rest := ResolveEach(es[..i]), Broods(sp, es[..i]), es[i + 1..];
    var r := Resolving(sp, es, items, i);
    var x, y := es[i], Resolve(es[i]);
    assert r.0[i] == x && r.0[i := y] == done + [y] + rest + tail by {
      assert es[i..] == [x] + rest;
      assert r.0 == done + [x] + (rest + tail);
      ReplaceMiddle(done, x, rest + tail, y);
    }
    assert ResolveEach(es[..i + 1]) == done + [y] && Broods(sp, es[..i + 1]) == tail + Brood(sp, x)
           && Drops(es[..i + 1]) == Drops(es[..i]) + Drop(x) by {
      assert es[..i + 1][..i] == es[..i] && es[..i + 1][i] == x;
    }
    var s := ResolveAt(sp, r.0, r.1, i);
    assert s.0 == done + [y] + rest + (tail + Brood(sp, x));
    assert s.1 == items + (Drops(es[..i]) + Drop(x));
  }

  lemma ReplaceMiddle<T>(a: seq<T>, x: T, b: seq<T>, y: T)
    ensures (a + [x] + b)[|a|] == x
    ensures (a + [x] + b)[|a| := y] == a + [y] + b
  {
  }

  /** The guards spawned by the mothers among `es`, in order. */
  function Broods(sp: Spawner, es: seq<Eeper>): seq<Eeper>
    decreases |es|
  {
    if |es| == 0 then [] else Broods(sp, es[..|es| - 1]) + Brood(sp, es[|es| - 1])
  }

  /** The keys dropped by the gnomes among `es`, in order. */
  function Drops(es: seq<Eeper>): seq<Item>
    decreases |es|
  {
    if |es| == 0 then [] else Drops(es[..|es| - 1]) + Drop(es[|es| - 1])
  }

  /**
   * How the blasts of a turn end for one eeper: a hurt guard loses `ExplosionDamage`
   * and dies exactly when no health is left; a hurt mother or gnome dies; the father is
   * immune; an eeper that is dead or was not reached is left alone. Kind, position and
   * size never change.
   */
  lemma ResolveOutcome(e: Eeper)
    ensures var r := Resolve(e);
            && r.kind == e.kind && r.position == e.position && r.size == e.size
            && (!Hurt(e) ==> r == e)
            && (Hurt(e) && e.kind == EeperGuard ==>
                  r.health == e.health - ExplosionDamage && (r.dead <==> e.health - ExplosionDamage <= 0.0))
            && (Hurt(e) && (e.kind == EeperMother || e.kind == EeperGnome) ==> r.dead && r.health == e.health)
            && (e.kind == EeperFather ==> r == e)
            && (e.dead ==> r.dead)
  {
  }

  /** Every spawned guard stands at one of the four corners of a hurt mother. */
  lemma {:induction false} BroodsComeFromMothers(sp: Spawner, es: seq<Eeper>)
    ensures forall g :: g in Broods(sp, es) ==>
              exists i, j :: 0 <= i < |es| && 0 <= j < 4 && Hurt(es[i]) && es[i].kind == EeperMother &&
                             g == Spawn(sp, EeperGuard, es[i].position.Add(BroodOffsets[j]))
    decreases |es|
  {
    if |es| > 0 {
      var init, last := es[..|es| - 1], es[|es| - 1];
      BroodsComeFromMothers(sp, init);
      forall g | g in Broods(sp, es)
        ensures exists i, j :: 0 <= i < |es| && 0 <= j < 4 && Hurt(es[i]) && es[i].kind == EeperMother &&
                               g == Spawn(sp, EeperGuard, es[i].position.Add(BroodOffsets[j]))
      {
        if g in Broods(sp, init) {
          var i, j :| 0 <= i < |init| && 0 <= j < 4 && Hurt(init[i]) && init[i].kind == EeperMother &&
                      g == Spawn(sp, EeperGuard, init[i].position.Add(BroodOffsets[j]));
          assert es[i] == init[i];
        } else {
          var j :| 0 <= j < 4 && Brood(sp, last)[j] == g;
          assert es[|es| - 1] == last;
        }
      }
    }
  }

  /** Each corner of each hurt mother gets its guard. */
  lemma {:induction false} MothersBrood(sp: Spawner, es: seq<Eeper>)
    ensures forall i, j :: 0 <= i < |es| && 0 <= j < 4 && Hurt(es[i]) && es[i].kind == EeperMother ==>
              Spawn(sp, EeperGuard, es[i].position.Add(BroodOffsets[j])) in Broods(sp, es)
    decreases |es|
  {
    if |es| > 0 {
      var init, last := es[..|es| - 1], es[|es| - 1];
      MothersBrood(sp, init);
      forall i, j | 0 <= i < |es| && 0 <= j < 4 && Hurt(es[i]) && es[i].kind == EeperMother
        ensures Spawn(sp, EeperGuard, es[i].position.Add(BroodOffsets[j])) in Broods(sp, es)
      {
        if i < |es| - 1 {
          assert es[i] == init[i];
        } else {
          assert Brood(sp, last)[j] == Spawn(sp, EeperGuard, es[i].position.Add(BroodOffsets[j]));
        }
      }
    }
  }

  /** Exactly four guards per hurt mother. */
  lemma {:induction false} BroodsCount(sp: Spawner, es: seq<Eeper>)
    ensures |Broods(sp, es)| == 4 * |Mothers(es)|
    decreases |es|
  {
    if |es| > 0 {
      BroodsCount(sp, es[..|es| - 1]);
    }
  }

  /** The hurt mothers among `es`, in order. */
  function Mothers(es: seq<Eeper>): seq<Eeper>
    decreases |es|
  {
    if |es| == 0 then []
    else Mothers(es[..|es| - 1]) + if Hurt(es[|es| - 1]) && es[|es| - 1].kind == EeperMother then [es[|es| - 1]] else []
  }

  /** The dropped keys are exactly one key at the position of each hurt gnome, in order. */
  lemma {:induction false} DropsAreGnomesKeys(es: seq<Eeper>)
    ensures forall it :: it in Drops(es) ==>
              it.kind == ItemKey && it.cooldown == 0 &&
              exists i :: 0 <= i < |es| && Hurt(es[i]) && es[i].kind == EeperGnome && it.position == es[i].position
    ensures forall i :: 0 <= i < |es| && Hurt(es[i]) && es[i].kind == EeperGnome ==>
              Item(ItemKey, es[i].position, 0) in Drops(es)
    decreases |es|
  {
    if |es| > 0 {
      var init, last := es[..|es| - 1], es[|es| - 1];
      DropsAreGnomesKeys(init);
      assert Drops(es) == Drops(init) + Drop(last);
      forall it | it in Drops(es)
        ensures it.kind == ItemKey && it.cooldown == 0 &&
                exists i :: 0 <= i < |es| && Hurt(es[i]) && es[i].kind == EeperGnome && it.position == es[i].position
      {
        if it in Drops(init) {
          var i :| 0 <= i < |init| && Hurt(init[i]) && init[i].kind == EeperGnome && it.position == init[i].position;
          assert es[i] == init[i];
        } else {
          assert es[|es| - 1] == last;
        }
      }
      forall i | 0 <= i < |es| && Hurt(es[i]) && es[i].kind == EeperGnome
        ensures Item(ItemKey, es[i].position, 0) in Drops(es)
      {
        if i < |es| - 1 {
          assert es[i] == init[i];
        }
      }
    }
  }

  /** What `UpdateBombs` reads and writes, besides the arena. */
  datatype Turnout = Turnout(arena: Arena, bombs: seq<Bomb>, items: seq<Item>)

  /**
   * `UpdateBombs`: clear last turn's damage flags, run the countdown with its blasts,
   * then resolve the damage on the eepers that were there before the blasts; the spawned
   * guards go after them and the dropped keys after the items.
   */
  function UpdateBombs(a: Arena, bs: seq<Bomb>, items: seq<Item>, sp: Spawner, now: real): (r: Turnout)
    requires Rectangular(a.grid) && FusesInMap(a.grid, bs)
    ensures |r.items| >= |items| && r.items[..|items|] == items
  {
    var c := CountDown(a.(eepers := ClearDamaged(a.eepers)), bs, |bs|, [], now);
    var es := c.0.eepers;
    Turnout(c.0.(eepers := ResolveEach(es) + Broods(sp, es)), c.1, items + Drops(es))
  }

  /**
   * One bomb turn keeps the bombs that have not gone off, ticked once and in order,
   * adds one guard per corner of each hurt mother and one key per hurt gnome, and blasts
   * the cell of every bomb that went off, killing a player standing on one.
   */
  lemma UpdateBombsOutcome(a: Arena, bs: seq<Bomb>, items: seq<Item>, sp: Spawner, now: real)
    requires Rectangular(a.grid) && FusesInMap(a.grid, bs)
    ensures var r := UpdateBombs(a, bs, items, sp, now);
            && r.bombs == Ticked(bs)
            && (forall i :: 0 <= i < |bs| && bs[i].countdown - 1 == 0 ==>
                  && WithinMap(r.arena.grid, bs[i].position) && At(r.arena.grid, bs[i].position) == CellExplosion
                  && (bs[i].position == a.player.position ==> r.arena.player.dead))
            && (a.player.dead ==> r.arena.player.dead)
            && r.arena.player.position == a.player.position
            && |r.arena.eepers| >= |a.eepers|
  {
    var cleared := a.(eepers := ClearDamaged(a.eepers));
    CountDownKeeps(cleared, bs, |bs|, [], now);
    assert bs[..|bs|] == bs && Ticked(bs) + [] == Ticked(bs);
    forall i | 0 <= i < |bs| && bs[i].countdown - 1 == 0
      ensures var r := CountDown(cleared, bs, |bs|, [], now).0;
              && ExplosionAt(r.grid, bs[i].position)
              && (bs[i].position == a.player.position ==> r.player.dead)
    {
      CountDownBlastsFuse(cleared, bs, |bs|, [], i, now);
      if bs[i].position == a.player.position {
        CountDownKillsOnFuse(cleared, bs, |bs|, [], i, now);
      }
    }
    CountDownWorse(cleared, bs, |bs|, [], now);
  }
}
