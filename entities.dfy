/**
 * The entity records of the game (pkg/entities): player, eepers, items, bombs,
 * explosions and portals, with the portal footprint and its queries.
 *
 * Health, open progress and times are `float32`/`float64` in the game; they are
 * `real` here and no rounding is modelled. Eye shapes and eye angles are cosmetic
 * and are not part of these records.
 */
module Entities {
  import opened Geometry

  datatype Player = Player(
    prevPosition: IVector2,
    position: IVector2,
    eyesTarget: IVector2,
    keys: int,
    bombs: int,
    bombSlots: int,
    health: real,
    dead: bool,
    deathTime: real,
    reachedFather: bool,
    victoryTime: real,
    enteringPortal: bool,
    portalEntryTime: real,
    portalToActivate: int)

  datatype EeperKind = EeperGuard | EeperMother | EeperGnome | EeperFather

  datatype Eeper = Eeper(
    kind: EeperKind,
    dead: bool,
    position: IVector2,
    prevPosition: IVector2,
    size: IVector2,
    path: seq<seq<int>>,
    damaged: bool,
    health: real,
    attackCooldown: int)
  {
    /** The half-open rectangle `[position, position + size)` the eeper occupies. */
    predicate Covers(p: IVector2) {
      InsideRect(position, size, p)
    }
  }

  /** A one-cell eeper covers exactly its own position. */
  lemma UnitEeperCoversOnlyItsPosition(e: Eeper, p: IVector2)
    requires e.size == IVector2(1, 1)
    ensures e.Covers(p) <==> p == e.position
  {
  }

  /** A non-empty rectangle covers its corner, and nothing left of or above it. */
  lemma EeperCoversItsCorner(e: Eeper, p: IVector2)
    requires e.size.x > 0 && e.size.y > 0
    ensures e.Covers(e.position)
    ensures p.x < e.position.x || p.y < e.position.y ==> !e.Covers(p)
  {
  }

  /**
   * Size and health of a freshly spawned eeper of each kind. The spawners are not
   * defined in the game's sources, so they are parameters of the model.
   */
  datatype Spawner = Spawner(size: EeperKind -> IVector2, health: EeperKind -> real)

  /** One live eeper of `kind` standing at `pos`. */
  function Spawn(s: Spawner, kind: EeperKind, pos: IVector2): Eeper {
    Eeper(kind, false, pos, pos, s.size(kind), [], false, s.health(kind), 0)
  }

  datatype ItemKind = ItemNone | ItemKey | ItemBombRefill | ItemCheckpoint | ItemBombSlot

  datatype Item = Item(kind: ItemKind, position: IVector2, cooldown: int)

  datatype Bomb = Bomb(position: IVector2, countdown: int)

  datatype Explosion = Explosion(position: IVector2, timer: int, initialTimer: int)

  /** A 3x3 portal; `cells` is the footprint it was built with. */
  datatype Portal = Portal(id: int, centerPos: IVector2, cells: seq<IVector2>, openProgress: real, isActivated: bool)
  {
    method ContainsPosition(pos: IVector2) returns (found: bool)
      ensures found <==> pos in cells
    {
      for i := 0 to |cells|
        invariant pos !in cells[..i]
      {
        if cells[i].x == pos.x && cells[i].y == pos.y {
          return true;
        }
      }
      return false;
    }

    /** The squared Euclidean distance from the centre. */
    function DistanceToPlayer(playerPos: IVector2): (d: int)
      ensures d >= 0
      ensures d == 0 <==> playerPos == centerPos
    {
      var dx := centerPos.x - playerPos.x;
      var dy := centerPos.y - playerPos.y;
      assert dx * dx >= 0 && dy * dy >= 0;
      assert dx != 0 ==> dx * dx > 0;
      assert dy != 0 ==> dy * dy > 0;
      dx * dx + dy * dy
    }
  }

  /** The nine cells around `c`, row by row from the top left. */
  function Footprint(c: IVector2): seq<IVector2> {
    seq(9, i requires 0 <= i < 9 => IVector2(c.x + i % 3 - 1, c.y + i / 3 - 1))
  }

  lemma FootprintAt(c: IVector2, dx: int, dy: int)
    requires -1 <= dx <= 1 && -1 <= dy <= 1
    ensures 3 * (dy + 1) + (dx + 1) < 9
    ensures Footprint(c)[3 * (dy + 1) + (dx + 1)] == IVector2(c.x + dx, c.y + dy)
  {
    var i := 3 * (dy + 1) + (dx + 1);
    assert i % 3 == dx + 1 && i / 3 == dy + 1;
  }

  method NewPortal(id: int, centerPos: IVector2) returns (p: Portal)
    ensures p == Portal(id, centerPos, Footprint(centerPos), 0.0, false)
  {
    var cells: seq<IVector2> := [];
    var dy := -1;
    while dy <= 1
      invariant -1 <= dy <= 2
      invariant cells == Footprint(centerPos)[..3 * (dy + 1)]
    {
      var dx := -1;
      while dx <= 1
        invariant -1 <= dx <= 2
        invariant cells == Footprint(centerPos)[..3 * (dy + 1) + (dx + 1)]
      {
        FootprintAt(centerPos, dx, dy);
        cells := cells + [IVector2(centerPos.x + dx, centerPos.y + dy)];
        dx := dx + 1;
      }
      dy := dy + 1;
    }
    return Portal(id, centerPos, cells, 0.0, false);
  }

  /** The footprint is the 3x3 block centred on `c`: nine distinct cells, the centre among them. */
  lemma FootprintIsBlock(c: IVector2, pos: IVector2)
    ensures |Footprint(c)| == 9
    ensures pos in Footprint(c) <==> -1 <= pos.x - c.x <= 1 && -1 <= pos.y - c.y <= 1
    ensures c in Footprint(c)
    ensures forall i, j :: 0 <= i < j < 9 ==> Footprint(c)[i] != Footprint(c)[j]
  {
    if -1 <= pos.x - c.x <= 1 && -1 <= pos.y - c.y <= 1 {
      FootprintAt(c, pos.x - c.x, pos.y - c.y);
    }
    FootprintAt(c, 0, 0);
    forall i, j | 0 <= i < j < 9
      ensures Footprint(c)[i] != Footprint(c)[j]
    {
      if i / 3 == j / 3 {
        assert i % 3 != j % 3;
      }
    }
  }
}
