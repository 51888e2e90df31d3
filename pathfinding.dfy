/**
 * Point-to-point breadth-first search over floor cells (pkg/pathfinding/bfs.go).
 *
 * `Search` and `Expand` define, as functions, exactly the result that the queue of
 * paths in `BFS` computes; `BFS` is proved equal to them, and the lemmas prove what a
 * caller may rely on: the path starts at `start`, ends at `end`, moves one unit step at
 * a time through floor cells, never repeats a point and is as short as any such path,
 * and there is no result exactly when `end` cannot be reached.
 */
module Pathfinding {
  import opened Wrappers
  import opened Geometry

  datatype Point = Point(x: int, y: int)

  /** The neighbour order of the search: down, up, right, left. */
  const SearchSteps: seq<Point> := [Point(0, 1), Point(0, -1), Point(1, 0), Point(-1, 0)]

  function Neighbor(p: Point, k: nat): Point
    requires k < 4
  {
    Point(p.x + SearchSteps[k].x, p.y + SearchSteps[k].y)
  }

  lemma NeighborIsAdjacent(p: Point, k: nat)
    requires k < 4
    ensures Adjacent(p, Neighbor(p, k))
  {
    if k == 0 {
      assert SearchSteps[0] == Point(0, 1);
    } else if k == 1 {
      assert SearchSteps[1] == Point(0, -1);
    } else if k == 2 {
      assert SearchSteps[2] == Point(1, 0);
    } else {
      assert SearchSteps[3] == Point(-1, 0);
    }
  }

  /** A point the search may step onto: inside the grid and a floor cell. */
  predicate IsValid(p: Point, grid: Grid)
    requires Rectangular(grid)
  {
    p.y >= 0 && p.y < |grid| && p.x >= 0 && p.x < |grid[0]| && grid[p.y][p.x] == CellFloor
  }

  /** `q` is one of the four edge-neighbours of `p`. */
  predicate Adjacent(p: Point, q: Point) {
    || (p.x == q.x && (q.y == p.y + 1 || q.y == p.y - 1))
    || (p.y == q.y && (q.x == p.x + 1 || q.x == p.x - 1))
  }

  function StepIndex(p: Point, q: Point): (k: nat)
    requires Adjacent(p, q)
    ensures k < 4 && Neighbor(p, k) == q
  {
    if q.y == p.y + 1 && q.x == p.x then 0
    else if q.y == p.y - 1 && q.x == p.x then 1
    else if q.x == p.x + 1 then 2
    else 3
  }

  function Last(path: seq<Point>): Point
    requires |path| > 0
  {
    path[|path| - 1]
  }

  /** A walk from `start` by unit steps whose every point after the first is valid; `start` itself is not checked. */
  ghost predicate IsPath(grid: Grid, start: Point, path: seq<Point>)
    requires Rectangular(grid)
  {
    && |path| > 0
    && path[0] == start
    && (forall i :: 0 < i < |path| ==> IsValid(path[i], grid))
    && (forall i :: 0 <= i < |path| - 1 ==> Adjacent(path[i], path[i + 1]))
  }

  predicate Distinct(path: seq<Point>) {
    forall i, j :: 0 <= i < j < |path| ==> path[i] != path[j]
  }

  ghost predicate Reachable(grid: Grid, start: Point, end: Point)
    requires Rectangular(grid)
  {
    exists path :: IsPath(grid, start, path) && Last(path) == end
  }

  /** What the search returns is a path to `end`, shortest and without repetition, and it returns nothing exactly when `end` is unreachable. */
  ghost predicate SearchResult(grid: Grid, start: Point, end: Point, r: Option<seq<Point>>)
    requires Rectangular(grid)
  {
    && (r.Some? ==> IsPath(grid, start, r.value) && Last(r.value) == end && Distinct(r.value))
    && (r.Some? ==> forall path :: IsPath(grid, start, path) && Last(path) == end ==> |r.value| <= |path|)
    && (r.None? <==> !Reachable(grid, start, end))
  }

  /** Every point the search can ever mark visited: the cells of the grid and the start. */
  ghost function Universe(grid: Grid, start: Point): set<Point> {
    (set y, x | 0 <= y < |grid| && 0 <= x < Width(grid) :: Point(x, y)) + {start}
  }

  lemma ValidInUniverse(grid: Grid, start: Point, p: Point)
    requires Rectangular(grid) && IsValid(p, grid)
    ensures p in Universe(grid, start)
  {
    assert Point(p.x, p.y) in (set y, x | 0 <= y < |grid| && 0 <= x < Width(grid) :: Point(x, y));
  }

  /** The inner loop of the search: extend `path` towards each of the neighbours `k..3` of its last point. */
  function Expand(grid: Grid, start: Point, path: seq<Point>, k: nat, queue: seq<seq<Point>>, visited: set<Point>)
    : (r: (seq<seq<Point>>, set<Point>))
    requires Rectangular(grid) && |path| > 0 && k <= 4
    requires visited <= Universe(grid, start)
    ensures visited <= r.1 <= Universe(grid, start)
    ensures r.1 == visited ==> r.0 == queue
    ensures (forall p :: p in queue ==> |p| > 0) ==> forall p :: p in r.0 ==> |p| > 0
    decreases 4 - k
  {
    if k == 4 then (queue, visited)
    else
      var next := Neighbor(Last(path), k);
      if IsValid(next, grid) && next !in visited then
        ValidInUniverse(grid, start, next);
        Expand(grid, start, path, k + 1, queue + [path + [next]], visited + {next})
      else
        Expand(grid, start, path, k + 1, queue, visited)
  }

  /** The outer loop of the search: pop the oldest path, return it if it reaches `end`, else expand it. */
  function Search(grid: Grid, start: Point, end: Point, queue: seq<seq<Point>>, visited: set<Point>): Option<seq<Point>>
    requires Rectangular(grid)
    requires visited <= Universe(grid, start)
    requires forall p :: p in queue ==> |p| > 0
    decreases Universe(grid, start) - visited, |queue|
  {
    if |queue| == 0 then None
    else
      var path := queue[0];
      if Last(path) == end then Some(path)
      else
        var next := Expand(grid, start, path, 0, queue[1..], visited);
        assert next.1 != visited ==> Universe(grid, start) - next.1 < Universe(grid, start) - visited;
        Search(grid, start, end, next.0, next.1)
  }

  /** The result of `BFS`: the search from the queue holding the one-point path `[start]`. */
  function ShortestPath(grid: Grid, start: Point, end: Point): Option<seq<Point>>
    requires Rectangular(grid)
  {
    Search(grid, start, end, [[start]], {start})
  }

  method BFS(grid: Grid, start: Point, end: Point) returns (result: Option<seq<Point>>)
    requires Rectangular(grid)
    ensures result == ShortestPath(grid, start, end)
    ensures SearchResult(grid, start, end, result)
  {
    var queue: seq<seq<Point>> := [[start]];
    var visited: set<Point> := {start};
    result := None;
    while |queue| > 0
      invariant visited <= Universe(grid, start)
      invariant forall p :: p in queue ==> |p| > 0
      invariant Search(grid, start, end, queue, visited) == ShortestPath(grid, start, end)
      decreases Universe(grid, start) - visited, |queue|
    {
      ghost var queue0, visited0 := queue, visited;
      var path := queue[0];
      queue := queue[1..];
      var node := path[|path| - 1];
      if node == end {
        result := Some(path);
        break;
      }
      SearchStep(grid, start, end, queue0, visited0);
      queue, visited := ExpandPath(grid, start, path, queue, visited);
    }
    ShortestPathCorrect(grid, start, end);
  }

  /** Popping a path that does not reach `end` and expanding it leaves the result of the search unchanged and shrinks what is left to visit. */
  lemma SearchStep(grid: Grid, start: Point, end: Point, queue: seq<seq<Point>>, visited: set<Point>)
    requires Rectangular(grid) && visited <= Universe(grid, start)
    requires forall p :: p in queue ==> |p| > 0
    requires |queue| > 0 && Last(queue[0]) != end
    ensures var n := Expand(grid, start, queue[0], 0, queue[1..], visited);
            && Search(grid, start, end, n.0, n.1) == Search(grid, start, end, queue, visited)
            && (forall p :: p in n.0 ==> |p| > 0)
            && (n.1 != visited ==> Universe(grid, start) - n.1 < Universe(grid, start) - visited)
  {
    assert forall p :: p in queue[1..] ==> p in queue;
  }

  /** The inner loop of `BFS`: queue the path to each valid, unvisited neighbour of the last point of `path`. */
  method ExpandPath(grid: Grid, start: Point, path: seq<Point>, queue0: seq<seq<Point>>, visited0: set<Point>)
    returns (queue: seq<seq<Point>>, visited: set<Point>)
    requires Rectangular(grid) && |path| > 0 && visited0 <= Universe(grid, start)
    ensures (queue, visited) == Expand(grid, start, path, 0, queue0, visited0)
  {
    queue, visited := queue0, visited0;
    var node := path[|path| - 1];
    for k := 0 to |SearchSteps|
      invariant visited <= Universe(grid, start)
      invariant Expand(grid, start, path, k, queue, visited) == Expand(grid, start, path, 0, queue0, visited0)
    {
      var nextNode := Point(node.x + SearchSteps[k].x, node.y + SearchSteps[k].y);
      assert nextNode == Neighbor(Last(path), k);
      if IsValid(nextNode, grid) && nextNode !in visited {
        ValidInUniverse(grid, start, nextNode);
        var newPath := path + [nextNode];
        queue := queue + [newPath];
        visited := visited + {nextNode};
      }
    }
  }

  /** The last points of the queued paths. */
  ghost function Ends(queue: seq<seq<Point>>): set<Point> {
    set path | path in queue && |path| > 0 :: Last(path)
  }

  /** A queued path: a distinct path from `start` whose points are all visited and whose end's distance is its length. */
  ghost predicate Queued(grid: Grid, start: Point, visited: set<Point>, dist: map<Point, nat>, path: seq<Point>)
    requires Rectangular(grid)
  {
    && IsPath(grid, start, path)
    && Distinct(path)
    && (forall i :: 0 <= i < |path| ==> path[i] in visited)
    && Last(path) in dist
    && dist[Last(path)] == |path|
  }

  ghost predicate AllQueued(grid: Grid, start: Point, visited: set<Point>, dist: map<Point, nat>, queue: seq<seq<Point>>)
    requires Rectangular(grid)
  {
    forall p :: p in queue ==> Queued(grid, start, visited, dist, p)
  }

  /** The queued paths are ordered by length, and all have between `lo` and `lo + 1` points. */
  ghost predicate Layered(queue: seq<seq<Point>>, lo: int) {
    && (forall i, j :: 0 <= i <= j < |queue| ==> |queue[i]| <= |queue[j]|)
    && (forall i :: 0 <= i < |queue| ==> lo <= |queue[i]| <= lo + 1)
  }

  /** Each valid neighbour of an expanded point is visited, at most one further away; for `node` only its neighbours below `k` so far. */
  ghost predicate ClosedBelow(grid: Grid, expanded: set<Point>, dist: map<Point, nat>, node: Point, k: nat)
    requires Rectangular(grid)
  {
    forall v, j :: v in expanded && 0 <= j < 4 && (v == node ==> j < k) && IsValid(Neighbor(v, j), grid) ==>
      v in dist && Neighbor(v, j) in dist && dist[Neighbor(v, j)] <= dist[v] + 1
  }

  ghost predicate DistBounded(dist: map<Point, nat>, bound: int) {
    forall v :: v in dist ==> dist[v] <= bound
  }

  /**
   * The state of the search between two pops. `expanded` holds the points already
   * popped and expanded, `dist` the length of the path with which each visited point
   * was queued. The queue is ordered by length and spans at most two lengths.
   */
  ghost predicate SearchInv(grid: Grid, start: Point, end: Point, queue: seq<seq<Point>>, visited: set<Point>,
                            expanded: set<Point>, dist: map<Point, nat>)
    requires Rectangular(grid)
  {
    && visited <= Universe(grid, start)
    && start in visited
    && dist.Keys == visited
    && dist[start] == 1
    && AllQueued(grid, start, visited, dist, queue)
    && (|queue| > 0 ==> Layered(queue, |queue[0]|))
    && visited == expanded + Ends(queue)
    && end !in expanded
    && ClosedBelow(grid, expanded, dist, start, 4)
    && (|queue| > 0 ==> DistBounded(dist, |queue[0]| + 1))
  }

  /** The state of the search while `path`, popped and already counted as expanded, is being expanded towards its neighbours `k..3`. */
  ghost predicate ExpandInv(grid: Grid, start: Point, end: Point, path: seq<Point>, k: nat, queue: seq<seq<Point>>,
                            visited: set<Point>, expanded: set<Point>, dist: map<Point, nat>)
    requires Rectangular(grid)
  {
    && k <= 4
    && visited <= Universe(grid, start)
    && start in visited
    && dist.Keys == visited
    && dist[start] == 1
    && Queued(grid, start, visited, dist, path)
    && Last(path) in expanded
    && AllQueued(grid, start, visited, dist, queue)
    && Layered(queue, |path|)
    && visited == expanded + Ends(queue)
    && end !in expanded
    && ClosedBelow(grid, expanded, dist, Last(path), k)
    && DistBounded(dist, |path| + 1)
  }

  lemma EndsOfAppend(queue: seq<seq<Point>>, path: seq<Point>)
    requires |path| > 0
    ensures Ends(queue + [path]) == Ends(queue) + {Last(path)}
  {
    assert forall p :: p in queue + [path] <==> p in queue || p == path;
  }

  lemma EndsOfPop(queue: seq<seq<Point>>)
    requires |queue| > 0 && |queue[0]| > 0
    ensures Ends(queue) == Ends(queue[1..]) + {Last(queue[0])}
  {
    assert queue == [queue[0]] + queue[1..];
    assert forall p :: p in queue <==> p in queue[1..] || p == queue[0];
  }

  /** Queuing a path to a new point keeps the facts about the paths already queued. */
  lemma QueuedGrows(grid: Grid, start: Point, visited: set<Point>, dist: map<Point, nat>, p: seq<Point>, next: Point, n: nat)
    requires Rectangular(grid)
    requires Queued(grid, start, visited, dist, p) && next !in visited
    ensures Queued(grid, start, visited + {next}, dist[next := n], p)
  {
  }

  lemma AppendKeepsLayered(queue: seq<seq<Point>>, lo: int, p: seq<Point>)
    requires Layered(queue, lo) && |p| == lo + 1
    ensures Layered(queue + [p], lo)
  {
    var q := queue + [p];
    forall i, j | 0 <= i <= j < |q|
      ensures |q[i]| <= |q[j]|
    {
      if j < |queue| {
        assert q[i] == queue[i] && q[j] == queue[j];
      } else if i < |queue| {
        assert q[i] == queue[i];
      }
    }
    forall i | 0 <= i < |q|
      ensures lo <= |q[i]| <= lo + 1
    {
      if i < |queue| {
        assert q[i] == queue[i];
      }
    }
  }

  lemma ClosedBelowGrows(grid: Grid, expanded: set<Point>, dist: map<Point, nat>, node: Point, k: nat, n: nat)
    requires Rectangular(grid) && k < 4
    requires ClosedBelow(grid, expanded, dist, node, k)
    requires node in dist && Neighbor(node, k) !in dist && n <= dist[node] + 1
    ensures ClosedBelow(grid, expanded, dist[Neighbor(node, k) := n], node, k + 1)
  {
    var dist1 := dist[Neighbor(node, k) := n];
    forall v, j | v in expanded && 0 <= j < 4 && (v == node ==> j < k + 1) && IsValid(Neighbor(v, j), grid)
      ensures v in dist1 && Neighbor(v, j) in dist1 && dist1[Neighbor(v, j)] <= dist1[v] + 1
    {
      if v == node && j == k {
      } else {
        assert v in dist && Neighbor(v, j) in dist && dist[Neighbor(v, j)] <= dist[v] + 1;
      }
    }
  }

  /** One step of the inner loop that queues the path to a new neighbour keeps the invariant. */
  lemma ExpandQueuesNeighbor(grid: Grid, start: Point, end: Point, path: seq<Point>, k: nat, queue: seq<seq<Point>>,
                             visited: set<Point>, expanded: set<Point>, dist: map<Point, nat>)
    requires Rectangular(grid)
    requires ExpandInv(grid, start, end, path, k, queue, visited, expanded, dist)
    requires k < 4 && IsValid(Neighbor(Last(path), k), grid) && Neighbor(Last(path), k) !in visited
    ensures var next := Neighbor(Last(path), k);
            ExpandInv(grid, start, end, path, k + 1, queue + [path + [next]], visited + {next}, expanded,
                      dist[next := |path| + 1])
  {
    var node := Last(path);
    var next := Neighbor(node, k);
    ValidInUniverse(grid, start, next);
    var newPath := path + [next];
    NeighborIsAdjacent(node, k);
    ExtendedIsQueued(grid, start, visited, dist, path, next);
    QueuedGrows(grid, start, visited, dist, path, next, |path| + 1);
    AppendKeepsQueued(grid, start, visited, dist, queue, newPath, next);
    EndsOfAppend(queue, newPath);
    AppendKeepsLayered(queue, |path|, newPath);
    ClosedBelowGrows(grid, expanded, dist, node, k, |path| + 1);
  }

  /** A queued path extended by a valid, unvisited neighbour of its end is queued once that neighbour is visited. */
  lemma ExtendedIsQueued(grid: Grid, start: Point, visited: set<Point>, dist: map<Point, nat>, path: seq<Point>, next: Point)
    requires Rectangular(grid)
    requires Queued(grid, start, visited, dist, path)
    requires IsValid(next, grid) && next !in visited && Adjacent(Last(path), next)
    ensures Queued(grid, start, visited + {next}, dist[next := |path| + 1], path + [next])
  {
    var newPath := path + [next];
    assert IsPath(grid, start, newPath) by {
      assert forall i :: 0 <= i < |path| ==> newPath[i] == path[i];
    }
    assert Distinct(newPath) by {
      assert forall i :: 0 <= i < |path| ==> path[i] in visited;
    }
  }

  /** Appending a queued path to a new point keeps every queued path queued. */
  lemma AppendKeepsQueued(grid: Grid, start: Point, visited: set<Point>, dist: map<Point, nat>, queue: seq<seq<Point>>,
                          newPath: seq<Point>, next: Point)
    requires Rectangular(grid)
    requires AllQueued(grid, start, visited, dist, queue) && next !in visited
    requires |newPath| > 0 && Queued(grid, start, visited + {next}, dist[next := |newPath|], newPath)
    ensures AllQueued(grid, start, visited + {next}, dist[next := |newPath|], queue + [newPath])
  {
    forall p | p in queue + [newPath]
      ensures Queued(grid, start, visited + {next}, dist[next := |newPath|], p)
    {
      if p != newPath {
        QueuedGrows(grid, start, visited, dist, p, next, |newPath|);
      }
    }
  }

  /** One step of the inner loop that leaves the queue alone keeps the invariant. */
  lemma ExpandSkipsNeighbor(grid: Grid, start: Point, end: Point, path: seq<Point>, k: nat, queue: seq<seq<Point>>,
                            visited: set<Point>, expanded: set<Point>, dist: map<Point, nat>)
    requires Rectangular(grid)
    requires ExpandInv(grid, start, end, path, k, queue, visited, expanded, dist)
    requires k < 4 && !(IsValid(Neighbor(Last(path), k), grid) && Neighbor(Last(path), k) !in visited)
    ensures ExpandInv(grid, start, end, path, k + 1, queue, visited, expanded, dist)
  {
  }

  lemma {:induction false} ExpandKeepsInvariant(grid: Grid, start: Point, end: Point, path: seq<Point>, k: nat,
                                                queue: seq<seq<Point>>, visited: set<Point>, expanded: set<Point>,
                                                dist: map<Point, nat>)
    returns (dist': map<Point, nat>)
    requires Rectangular(grid)
    requires ExpandInv(grid, start, end, path, k, queue, visited, expanded, dist)
    ensures var r := Expand(grid, start, path, k, queue, visited);
            ExpandInv(grid, start, end, path, 4, r.0, r.1, expanded, dist')
    decreases 4 - k
  {
    if k == 4 {
      return dist;
    }
    var next := Neighbor(Last(path), k);
    if IsValid(next, grid) && next !in visited {
      ExpandQueuesNeighbor(grid, start, end, path, k, queue, visited, expanded, dist);
      dist' := ExpandKeepsInvariant(grid, start, end, path, k + 1, queue + [path + [next]], visited + {next}, expanded,
                                    dist[next := |path| + 1]);
    } else {
      ExpandSkipsNeighbor(grid, start, end, path, k, queue, visited, expanded, dist);
      dist' := ExpandKeepsInvariant(grid, start, end, path, k + 1, queue, visited, expanded, dist);
    }
  }

  /** Every point that a path of at most `bound` points reaches has been visited, with a distance no larger than that path. */
  lemma {:induction false} ShortPathsAreVisited(grid: Grid, start: Point, visited: set<Point>, expanded: set<Point>,
                                                dist: map<Point, nat>, bound: nat, path: seq<Point>)
    requires Rectangular(grid)
    requires start in visited && dist.Keys == visited && dist[start] == 1 && expanded <= visited
    requires ClosedBelow(grid, expanded, dist, start, 4)
    requires forall v :: v in visited && dist[v] < bound ==> v in expanded
    requires IsPath(grid, start, path) && |path| <= bound
    ensures Last(path) in visited && dist[Last(path)] <= |path|
    decreases |path|
  {
    if |path| > 1 {
      var prefix := path[..|path| - 1];
      assert IsPath(grid, start, prefix);
      ShortPathsAreVisited(grid, start, visited, expanded, dist, bound, prefix);
      var y := path[|path| - 2];
      assert Last(prefix) == y;
      assert Adjacent(y, Last(path));
      var k := StepIndex(y, Last(path));
      assert IsValid(Neighbor(y, k), grid);
    }
  }

  /** Points whose distance is below the shortest queued path have all been expanded. */
  lemma BelowFrontIsExpanded(grid: Grid, start: Point, end: Point, queue: seq<seq<Point>>, visited: set<Point>,
                             expanded: set<Point>, dist: map<Point, nat>)
    requires Rectangular(grid)
    requires SearchInv(grid, start, end, queue, visited, expanded, dist) && |queue| > 0
    ensures forall v :: v in visited && dist[v] < |queue[0]| ==> v in expanded
  {
    forall p | p in queue
      ensures |p| > 0 && dist[Last(p)] >= |queue[0]|
    {
      var i :| 0 <= i < |queue| && queue[i] == p;
      assert Queued(grid, start, visited, dist, p);
    }
  }

  /** With the queue empty, every point reachable from the start has been expanded, so `end` is not reachable. */
  lemma EmptyQueueMeansUnreachable(grid: Grid, start: Point, end: Point, visited: set<Point>,
                                   expanded: set<Point>, dist: map<Point, nat>)
    requires Rectangular(grid)
    requires SearchInv(grid, start, end, [], visited, expanded, dist)
    ensures !Reachable(grid, start, end)
  {
    assert Ends([]) == {};
    forall path | IsPath(grid, start, path)
      ensures Last(path) != end
    {
      ShortPathsAreVisited(grid, start, visited, expanded, dist, |path|, path);
    }
  }

  /** When the front path reaches `end`, no path to `end` is shorter. */
  lemma FrontIsShortest(grid: Grid, start: Point, end: Point, queue: seq<seq<Point>>, visited: set<Point>,
                        expanded: set<Point>, dist: map<Point, nat>)
    requires Rectangular(grid)
    requires SearchInv(grid, start, end, queue, visited, expanded, dist) && |queue| > 0
    requires |queue[0]| > 0 && Last(queue[0]) == end
    ensures forall other :: IsPath(grid, start, other) && Last(other) == end ==> |queue[0]| <= |other|
  {
    assert Queued(grid, start, visited, dist, queue[0]);
    BelowFrontIsExpanded(grid, start, end, queue, visited, expanded, dist);
    forall other | IsPath(grid, start, other) && Last(other) == end
      ensures |queue[0]| <= |other|
    {
      if |other| < |queue[0]| {
        ShortPathsAreVisited(grid, start, visited, expanded, dist, |queue[0]|, other);
      }
    }
  }

  /** Popping a path that does not reach `end` starts its expansion in a state satisfying the inner invariant. */
  lemma PopStartsExpansion(grid: Grid, start: Point, end: Point, queue: seq<seq<Point>>, visited: set<Point>,
                           expanded: set<Point>, dist: map<Point, nat>)
    requires Rectangular(grid)
    requires SearchInv(grid, start, end, queue, visited, expanded, dist) && |queue| > 0
    requires |queue[0]| > 0 && Last(queue[0]) != end
    ensures ExpandInv(grid, start, end, queue[0], 0, queue[1..], visited, expanded + {Last(queue[0])}, dist)
  {
    var path := queue[0];
    assert Queued(grid, start, visited, dist, path);
    BelowFrontIsExpanded(grid, start, end, queue, visited, expanded, dist);
    EndsOfPop(queue);
    PopKeepsQueued(grid, start, visited, dist, queue);
    PopKeepsClosed(grid, start, expanded, dist, Last(path));
  }

  /** The paths left behind the popped one are still queued paths, no shorter than it and at most one longer. */
  lemma PopKeepsQueued(grid: Grid, start: Point, visited: set<Point>, dist: map<Point, nat>, queue: seq<seq<Point>>)
    requires Rectangular(grid)
    requires AllQueued(grid, start, visited, dist, queue) && |queue| > 0 && Layered(queue, |queue[0]|)
    ensures AllQueued(grid, start, visited, dist, queue[1..]) && Layered(queue[1..], |queue[0]|)
  {
    forall p | p in queue[1..]
      ensures Queued(grid, start, visited, dist, p)
    {
      assert p in queue;
    }
    forall i, j | 0 <= i <= j < |queue[1..]|
      ensures |queue[1..][i]| <= |queue[1..][j]|
    {
      assert queue[1..][i] == queue[i + 1] && queue[1..][j] == queue[j + 1];
    }
    forall i | 0 <= i < |queue[1..]|
      ensures |queue[0]| <= |queue[1..][i]| <= |queue[0]| + 1
    {
      assert queue[1..][i] == queue[i + 1];
    }
  }

  /** Counting the popped point as expanded, with none of its neighbours handled yet, keeps the closure. */
  lemma PopKeepsClosed(grid: Grid, start: Point, expanded: set<Point>, dist: map<Point, nat>, node: Point)
    requires Rectangular(grid) && ClosedBelow(grid, expanded, dist, start, 4)
    ensures ClosedBelow(grid, expanded + {node}, dist, node, 0)
  {
  }

  /** A finished expansion leaves the search in a state satisfying the outer invariant. */
  lemma ExpansionRestoresSearch(grid: Grid, start: Point, end: Point, path: seq<Point>, queue: seq<seq<Point>>,
                                visited: set<Point>, expanded: set<Point>, dist: map<Point, nat>)
    requires Rectangular(grid)
    requires ExpandInv(grid, start, end, path, 4, queue, visited, expanded, dist)
    ensures SearchInv(grid, start, end, queue, visited, expanded, dist)
  {
    if |queue| > 0 {
      assert forall v :: v in visited ==> dist[v] <= |queue[0]| + 1;
    }
  }

  lemma {:induction false} SearchCorrect(grid: Grid, start: Point, end: Point, queue: seq<seq<Point>>, visited: set<Point>,
                                         expanded: set<Point>, dist: map<Point, nat>)
    requires Rectangular(grid)
    requires forall p :: p in queue ==> |p| > 0
    requires SearchInv(grid, start, end, queue, visited, expanded, dist)
    ensures SearchResult(grid, start, end, Search(grid, start, end, queue, visited))
    decreases Universe(grid, start) - visited, |queue|
  {
    if |queue| == 0 {
      EmptyQueueMeansUnreachable(grid, start, end, visited, expanded, dist);
      return;
    }
    var path := queue[0];
    assert Queued(grid, start, visited, dist, path);
    if Last(path) == end {
      FrontIsShortest(grid, start, end, queue, visited, expanded, dist);
      return;
    }
    var node := Last(path);
    PopStartsExpansion(grid, start, end, queue, visited, expanded, dist);
    var dist' := ExpandKeepsInvariant(grid, start, end, path, 0, queue[1..], visited, expanded + {node}, dist);
    var next := Expand(grid, start, path, 0, queue[1..], visited);
    ExpansionRestoresSearch(grid, start, end, path, next.0, next.1, expanded + {node}, dist');
    SearchStep(grid, start, end, queue, visited);
    SearchCorrect(grid, start, end, next.0, next.1, expanded + {node}, dist');
  }

  lemma ShortestPathCorrect(grid: Grid, start: Point, end: Point)
    requires Rectangular(grid)
    ensures SearchResult(grid, start, end, ShortestPath(grid, start, end))
  {
    var queue := [[start]];
    var dist := map[start := 1];
    assert Queued(grid, start, {start}, dist, [start]);
    assert Ends(queue) == {start} by {
      assert forall p :: p in queue <==> p == [start];
    }
    assert SearchInv(grid, start, end, queue, {start}, {}, dist);
    SearchCorrect(grid, start, end, queue, {start}, {}, dist);
  }

  /** Searching for the start itself returns the one-point path, whatever kind of cell the start is. */
  lemma ShortestPathToStart(grid: Grid, start: Point)
    requires Rectangular(grid)
    ensures ShortestPath(grid, start, start) == Some([start])
  {
  }
}
