/**
 * Grid geometry: integer vectors (pkg/world/ivector2.go), the cell kinds of the map
 * (pkg/world/cell.go), the four explosion directions (pkg/game/directions.go), the
 * map bounds check, and the connected regions that the flood fills compute.
 */
module Geometry {

  /** An integer cell coordinate. */
  datatype IVector2 = IVector2(x: int, y: int) {

    function Add(other: IVector2): IVector2 {
      IVector2(x + other.x, y + other.y)
    }

    function Sub(other: IVector2): IVector2 {
      IVector2(x - other.x, y - other.y)
    }

    function Mul(s: int): IVector2 {
      IVector2(x * s, y * s)
    }
  }

  lemma AddCommutes(v: IVector2, w: IVector2)
    ensures v.Add(w) == w.Add(v)
  {
  }

  lemma AddAssociates(u: IVector2, v: IVector2, w: IVector2)
    ensures u.Add(v).Add(w) == u.Add(v.Add(w))
  {
  }

  lemma SubUndoesAdd(v: IVector2, w: IVector2)
    ensures v.Add(w).Sub(w) == v
  {
  }

  lemma MulByOneAndZero(v: IVector2)
    ensures v.Mul(1) == v
    ensures v.Mul(0) == IVector2(0, 0)
  {
  }

  /** Walking `i + 1` steps of `d` is walking `i` steps and then one more: the stepping of a blast ray. */
  lemma MulStep(p: IVector2, d: IVector2, i: int)
    ensures p.Add(d.Mul(i + 1)) == p.Add(d.Mul(i)).Add(d)
  {
    assert d.x * (i + 1) == d.x * i + d.x;
    assert d.y * (i + 1) == d.y * i + d.y;
  }

  /** The kinds of map cell. */
  datatype Cell = CellNone | CellFloor | CellWall | CellBarricade | CellDoor | CellExplosion

  /** Up, Down, Left, Right, in this order. */
  const Directions: seq<IVector2> := [IVector2(0, -1), IVector2(0, 1), IVector2(-1, 0), IVector2(1, 0)]

  /** A move to one of the four edge-adjacent cells. */
  predicate IsUnitStep(d: IVector2) {
    (d.x == 0 && (d.y == 1 || d.y == -1)) || (d.y == 0 && (d.x == 1 || d.x == -1))
  }

  lemma DirectionsAreUnitSteps(d: IVector2)
    ensures d in Directions <==> IsUnitStep(d)
  {
  }

  /** `p` lies in the half-open rectangle `[rectPos, rectPos + rectSize)`. */
  predicate InsideRect(rectPos: IVector2, rectSize: IVector2, p: IVector2) {
    rectPos.x <= p.x < rectPos.x + rectSize.x && rectPos.y <= p.y < rectPos.y + rectSize.y
  }

  /** The map, row-major: `m[y][x]`. */
  type Grid = seq<seq<Cell>>

  /** Every row is as wide as the first one, as the level loader builds it. */
  predicate Rectangular(m: Grid) {
    forall y :: 0 <= y < |m| ==> |m[y]| == |m[0]|
  }

  function Width(m: Grid): nat {
    if |m| == 0 then 0 else |m[0]|
  }

  /** The bounds check of `WithinMap`: the width is that of the first row. */
  predicate WithinMap(m: Grid, p: IVector2) {
    0 <= p.y < |m| && 0 <= p.x < |m[0]|
  }

  function At(m: Grid, p: IVector2): Cell
    requires Rectangular(m) && WithinMap(m, p)
  {
    m[p.y][p.x]
  }

  predicate SameShape(m: Grid, r: Grid) {
    |r| == |m| && forall y :: 0 <= y < |m| ==> |r[y]| == |m[y]|
  }

  /** `m` with the one cell at `p` replaced by `c`. */
  function Put(m: Grid, p: IVector2, c: Cell): (r: Grid)
    requires Rectangular(m) && WithinMap(m, p)
    ensures Rectangular(r) && SameShape(m, r)
    ensures At(r, p) == c
    ensures forall q :: WithinMap(m, q) && q != p ==> At(r, q) == At(m, q)
  {
    m[p.y := m[p.y][p.x := c]]
  }

  /** `m` with every cell whose position is in `s` replaced by `c`. */
  function Paint(m: Grid, s: set<IVector2>, c: Cell): (r: Grid)
    ensures SameShape(m, r)
    ensures Rectangular(m) ==> Rectangular(r)
    ensures forall y, x :: 0 <= y < |m| && 0 <= x < |m[y]| ==>
              r[y][x] == if IVector2(x, y) in s then c else m[y][x]
  {
    seq(|m|, y requires 0 <= y < |m| =>
      seq(|m[y]|, x requires 0 <= x < |m[y]| => if IVector2(x, y) in s then c else m[y][x]))
  }

  lemma PaintAt(m: Grid, s: set<IVector2>, c: Cell, p: IVector2)
    requires Rectangular(m) && WithinMap(m, p)
    ensures Rectangular(Paint(m, s, c)) && WithinMap(Paint(m, s, c), p)
    ensures At(Paint(m, s, c), p) == if p in s then c else At(m, p)
  {
  }

  /** Painting one more cell with the same kind is painting the larger set. */
  lemma PaintThenPut(m: Grid, s: set<IVector2>, c: Cell, p: IVector2)
    requires Rectangular(m) && WithinMap(m, p)
    ensures Rectangular(Paint(m, s, c)) && WithinMap(Paint(m, s, c), p)
    ensures Put(Paint(m, s, c), p, c) == Paint(m, s + {p}, c)
  {
    var l := Put(Paint(m, s, c), p, c);
    var r := Paint(m, s + {p}, c);
    assert |l| == |r|;
    forall y | 0 <= y < |m|
      ensures l[y] == r[y]
    {
      assert |l[y]| == |r[y]|;
      forall x | 0 <= x < |m[y]|
        ensures l[y][x] == r[y][x]
      {
        if IVector2(x, y) != p {
          assert At(l, IVector2(x, y)) == At(Paint(m, s, c), IVector2(x, y));
        }
      }
    }
  }

  /** Painting nothing leaves the map as it is. */
  lemma PaintNothing(m: Grid, c: Cell)
    ensures Paint(m, {}, c) == m
  {
    var r := Paint(m, {}, c);
    forall y | 0 <= y < |m|
      ensures r[y] == m[y]
    {
    }
  }

  /** The positions of all cells of the map. */
  ghost function Cells(m: Grid): set<IVector2> {
    set y, x | 0 <= y < |m| && 0 <= x < Width(m) :: IVector2(x, y)
  }

  lemma CellsAreWithinMap(m: Grid, p: IVector2)
    ensures p in Cells(m) <==> WithinMap(m, p)
  {
    if WithinMap(m, p) {
      assert IVector2(p.x, p.y) in Cells(m);
    }
  }

  /**
   * `ps` is a walk whose every move is one of `steps` and whose every point after the
   * first is a cell of the map holding `through`. The first point is not checked,
   * as neither flood fill checks the cell it starts from against the region's kind.
   */
  ghost predicate IsWalk(m: Grid, steps: seq<IVector2>, through: Cell, ps: seq<IVector2>)
    requires Rectangular(m)
  {
    && |ps| > 0
    && (forall i :: 0 < i < |ps| ==> WithinMap(m, ps[i]) && At(m, ps[i]) == through)
    && (forall i :: 0 <= i < |ps| - 1 ==> ps[i + 1].Sub(ps[i]) in steps)
  }

  /** `p` is reached from `start` by a walk through `through` cells. */
  ghost predicate Connected(m: Grid, steps: seq<IVector2>, through: Cell, start: IVector2, p: IVector2)
    requires Rectangular(m)
  {
    exists ps :: IsWalk(m, steps, through, ps) && ps[0] == start && ps[|ps| - 1] == p
  }

  /** The cells of the map connected to `start`; `start` itself belongs to it when it is in the map. */
  ghost function Region(m: Grid, steps: seq<IVector2>, through: Cell, start: IVector2): set<IVector2>
    requires Rectangular(m)
  {
    set p | p in Cells(m) && Connected(m, steps, through, start, p)
  }

  lemma ConnectedStart(m: Grid, steps: seq<IVector2>, through: Cell, start: IVector2)
    requires Rectangular(m)
    ensures Connected(m, steps, through, start, start)
  {
    assert IsWalk(m, steps, through, [start]);
  }

  /** A region grows by one step into a neighbouring `through` cell. */
  lemma ConnectedStep(m: Grid, steps: seq<IVector2>, through: Cell, start: IVector2, q: IVector2, k: nat)
    requires Rectangular(m) && k < |steps|
    requires Connected(m, steps, through, start, q)
    requires WithinMap(m, q.Add(steps[k])) && At(m, q.Add(steps[k])) == through
    ensures Connected(m, steps, through, start, q.Add(steps[k]))
  {
    var ps :| IsWalk(m, steps, through, ps) && ps[0] == start && ps[|ps| - 1] == q;
    var n := q.Add(steps[k]);
    var ps' := ps + [n];
    assert n.Sub(q) == steps[k];
    assert forall i :: 0 <= i < |ps'| - 1 ==> ps'[i + 1].Sub(ps'[i]) in steps by {
      forall i | 0 <= i < |ps'| - 1
        ensures ps'[i + 1].Sub(ps'[i]) in steps
      {
        if i < |ps| - 1 {
          assert ps'[i + 1] == ps[i + 1] && ps'[i] == ps[i];
        }
      }
    }
    assert IsWalk(m, steps, through, ps');
  }

  /** Every cell of a region other than its start holds the region's kind. */
  lemma ConnectedHolds(m: Grid, steps: seq<IVector2>, through: Cell, start: IVector2, p: IVector2)
    requires Rectangular(m)
    requires Connected(m, steps, through, start, p) && p != start
    ensures WithinMap(m, p) && At(m, p) == through
  {
    var ps :| IsWalk(m, steps, through, ps) && ps[0] == start && ps[|ps| - 1] == p;
    assert |ps| > 1;
  }

  /** A set that holds `start` and is closed under steps into `through` cells holds every point of a walk from `start`. */
  lemma {:induction false} WalkStaysInClosedSet(m: Grid, steps: seq<IVector2>, through: Cell, s: set<IVector2>, ps: seq<IVector2>)
    requires Rectangular(m)
    requires IsWalk(m, steps, through, ps) && ps[0] in s
    requires forall q, k :: q in s && 0 <= k < |steps| && WithinMap(m, q.Add(steps[k])) && At(m, q.Add(steps[k])) == through
               ==> q.Add(steps[k]) in s
    ensures ps[|ps| - 1] in s
    decreases |ps|
  {
    if |ps| > 1 {
      var prefix := ps[..|ps| - 1];
      assert IsWalk(m, steps, through, prefix);
      WalkStaysInClosedSet(m, steps, through, s, prefix);
      var q := ps[|ps| - 2];
      var n := ps[|ps| - 1];
      assert n.Sub(q) in steps;
      var k :| 0 <= k < |steps| && steps[k] == n.Sub(q);
      assert q.Add(steps[k]) == n;
    }
  }

  /** The region is the least such closed set: a closed set holding `start` holds the whole region. */
  lemma ClosedSetContainsRegion(m: Grid, steps: seq<IVector2>, through: Cell, start: IVector2, s: set<IVector2>)
    requires Rectangular(m)
    requires start in s
    requires forall q, k :: q in s && 0 <= k < |steps| && WithinMap(m, q.Add(steps[k])) && At(m, q.Add(steps[k])) == through
               ==> q.Add(steps[k]) in s
    ensures Region(m, steps, through, start) <= s
  {
    forall p | p in Region(m, steps, through, start)
      ensures p in s
    {
      var ps :| IsWalk(m, steps, through, ps) && ps[0] == start && ps[|ps| - 1] == p;
      WalkStaysInClosedSet(m, steps, through, s, ps);
    }
  }
}
