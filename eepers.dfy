/**
 * The eepers' turn (pkg/game/eepers.go). Only guards act: a guard with no health
 * dies, otherwise its attack cooldown counts down, and it either takes the first step
 * of a shortest path towards the player or, standing on the player already, attacks.
 * Mothers, gnomes and the father do nothing on their turn.
 */
module Eepers {
  import opened Wrappers
  import opened Geometry
  import opened Entities
  import opened Pathfinding
  import opened Players

  /** The turns a guard rests after an attack. */
  const GuardAttackCooldown: int := 5

  /** The health a guard's attack takes from the player. */
  const GuardDamage: real := 0.35

  /**
   * `eeperCanStandHere`: a floor cell of the map not covered by any other live eeper.
   * The moving eeper itself is told apart by its index.
   */
  predicate CanStandHere(m: Grid, eepers: seq<Eeper>, i: nat, pos: IVector2)
    requires Rectangular(m)
  {
    && WithinMap(m, pos)
    && At(m, pos) == CellFloor
    && (forall j :: 0 <= j < |eepers| && j != i && !eepers[j].dead ==> !eepers[j].Covers(pos))
  }

  /** Whether a cell is free for eeper `i` does not depend on eeper `i` itself. */
  lemma CanStandHereIgnoresSelf(m: Grid, eepers: seq<Eeper>, i: nat, e: Eeper, pos: IVector2)
    requires Rectangular(m) && i < |eepers|
    ensures CanStandHere(m, eepers[i := e], i, pos) == CanStandHere(m, eepers, i, pos)
  {
    if WithinMap(m, pos) && At(m, pos) == CellFloor {
      forall j | 0 <= j < |eepers| && j != i
        ensures eepers[i := e][j] == eepers[j]
      {
      }
    }
  }

  function ToPoint(v: IVector2): Point {
    Point(v.x, v.y)
  }

  function FromPoint(p: Point): IVector2 {
    IVector2(p.x, p.y)
  }

  /** What the eepers' turn reads and writes. */
  datatype Pack = Pack(player: Player, eepers: seq<Eeper>)

  /** The player after a guard's hit, killed when the health drops to zero or below. */
  function Hit(p: Player, now: real): Player {
    var hurt := p.(health := p.health - GuardDamage);
    if hurt.health <= 0.0 then Killed(hurt, now) else hurt
  }

  /** The cooldown after the countdown at the start of a guard's turn. */
  function CountedDown(cooldown: int): int {
    if cooldown > 0 then cooldown - 1 else cooldown
  }

  /** The BFS path of `updateGuard` from the eeper's corner to the player. */
  function PathToPlayer(m: Grid, e: Eeper, p: Player): Option<seq<Point>>
    requires Rectangular(m)
  {
    ShortestPath(m, ToPoint(e.position), ToPoint(p.position))
  }

  /** Whether that path leaves the guard a step to take. */
  predicate HasStep(path: Option<seq<Point>>) {
    path.Some? && |path.value| > 1
  }

  /** `updateGuard` for eeper `i`. */
  function GuardTurn(m: Grid, pk: Pack, i: nat, now: real): (r: Pack)
    requires Rectangular(m) && i < |pk.eepers|
    ensures |r.eepers| == |pk.eepers|
  {
    var e := pk.eepers[i];
    if e.health <= 0.0 then pk.(eepers := pk.eepers[i := e.(dead := true)])
    else
      var cd := CountedDown(e.attackCooldown);
      var path := ShortestPath(m, ToPoint(e.position), ToPoint(pk.player.position));
      if path.Some? && |path.value| > 1 then
        var next := FromPoint(path.value[1]);
        if CanStandHere(m, pk.eepers, i, next) then
          pk.(eepers := pk.eepers[i := e.(attackCooldown := cd, prevPosition := e.position, position := next)])
        else
          pk.(eepers := pk.eepers[i := e.(attackCooldown := cd)])
      else if cd == 0 && e.Covers(pk.player.position) then
        Pack(Hit(pk.player, now), pk.eepers[i := e.(attackCooldown := GuardAttackCooldown)])
      else
        pk.(eepers := pk.eepers[i := e.(attackCooldown := cd)])
  }

  /** The eepers from `i` on take their turns in order; dead ones and all but guards are skipped. */
  function UpdateFrom(m: Grid, pk: Pack, i: nat, now: real): (r: Pack)
    requires Rectangular(m) && i <= |pk.eepers|
    ensures |r.eepers| == |pk.eepers|
    decreases |pk.eepers| - i
  {
    if i == |pk.eepers| then pk
    else
      var e := pk.eepers[i];
      var next := if !e.dead && e.kind == EeperGuard then GuardTurn(m, pk, i, now) else pk;
      UpdateFrom(m, next, i + 1, now)
  }

  /** `UpdateEepers`. */
  function UpdateAll(m: Grid, pk: Pack, now: real): Pack
    requires Rectangular(m)
  {
    UpdateFrom(m, pk, 0, now)
  }

  /** A guard's turn changes only that guard, keeping its kind, size and health. */
  lemma GuardTurnTouchesOnlyItself(m: Grid, pk: Pack, i: nat, now: real)
    requires Rectangular(m) && i < |pk.eepers|
    ensures forall j :: 0 <= j < |pk.eepers| && j != i ==> GuardTurn(m, pk, i, now).eepers[j] == pk.eepers[j]
    ensures var e, e' := pk.eepers[i], GuardTurn(m, pk, i, now).eepers[i];
            e'.kind == e.kind && e'.size == e.size && e'.health == e.health
  {
  }

  /** A guard with no health left dies and does nothing else. */
  lemma HealthlessGuardDies(m: Grid, pk: Pack, i: nat, now: real)
    requires Rectangular(m) && i < |pk.eepers| && pk.eepers[i].health <= 0.0
    ensures GuardTurn(m, pk, i, now) == pk.(eepers := pk.eepers[i := pk.eepers[i].(dead := true)])
  {
  }

  /**
   * A guard that moves takes one unit step onto a floor cell that no other live eeper
   * covers, and that step is the second point of the shortest path to the player. A live
   * guard whose path has such a second point moves there whenever it can stand there.
   */
  lemma GuardStepsTowardsPlayer(m: Grid, pk: Pack, i: nat, now: real)
    requires Rectangular(m) && i < |pk.eepers|
    ensures var e, e' := pk.eepers[i], GuardTurn(m, pk, i, now).eepers[i];
            var path := PathToPlayer(m, e, pk.player);
            e'.position != e.position ==>
              && HasStep(path) && e'.position == FromPoint(path.value[1])
              && e'.prevPosition == e.position
              && IsUnitStep(e'.position.Sub(e.position))
              && CanStandHere(m, pk.eepers, i, e'.position)
              && GuardTurn(m, pk, i, now).player == pk.player
    ensures var e, e' := pk.eepers[i], GuardTurn(m, pk, i, now).eepers[i];
            var path := PathToPlayer(m, e, pk.player);
            e.health > 0.0 && HasStep(path) && CanStandHere(m, pk.eepers, i, FromPoint(path.value[1])) ==>
              e'.position == FromPoint(path.value[1]) && e'.prevPosition == e.position
  {
    var e := pk.eepers[i];
    var start, goal := ToPoint(e.position), ToPoint(pk.player.position);
    ShortestPathCorrect(m, start, goal);
    var path := ShortestPath(m, start, goal);
    if e.health > 0.0 && path.Some? && |path.value| > 1 {
      assert Adjacent(path.value[0], path.value[1]);
    }
  }

  /**
   * A live guard hurts the player exactly when its path leaves no step to take, its
   * counted-down cooldown is zero and it covers the player; a live guard that does not
   * attack keeps the counted-down cooldown.
   */
  lemma GuardAttacksOnlyWhenReady(m: Grid, pk: Pack, i: nat, now: real)
    requires Rectangular(m) && i < |pk.eepers|
    ensures var e, r := pk.eepers[i], GuardTurn(m, pk, i, now);
            r.player != pk.player ==>
              && e.health > 0.0
              && !HasStep(PathToPlayer(m, e, pk.player))
              && CountedDown(e.attackCooldown) == 0
              && e.Covers(pk.player.position)
              && r.player == Hit(pk.player, now)
              && r.eepers[i].attackCooldown == GuardAttackCooldown
              && r.eepers[i].position == e.position
    ensures var e, r := pk.eepers[i], GuardTurn(m, pk, i, now);
            e.health > 0.0 && !HasStep(PathToPlayer(m, e, pk.player))
            && CountedDown(e.attackCooldown) == 0 && e.Covers(pk.player.position) ==>
              r.player == Hit(pk.player, now)
    ensures var e, r := pk.eepers[i], GuardTurn(m, pk, i, now);
            e.health > 0.0 && r.player == pk.player ==> r.eepers[i].attackCooldown == CountedDown(e.attackCooldown)
  {
  }

  /**
   * A live one-cell guard standing on the player with its cooldown at zero or one
   * hits the player this turn: the path to the player is the one-point path.
   */
  lemma GuardOnPlayerAttacks(m: Grid, pk: Pack, i: nat, now: real)
    requires Rectangular(m) && i < |pk.eepers|
    requires var e := pk.eepers[i];
             e.health > 0.0 && e.size == IVector2(1, 1) && e.position == pk.player.position
             && 0 <= e.attackCooldown <= 1
    ensures GuardTurn(m, pk, i, now).player == Hit(pk.player, now)
    ensures GuardTurn(m, pk, i, now).eepers[i].attackCooldown == GuardAttackCooldown
  {
    ShortestPathToStart(m, ToPoint(pk.player.position));
  }

  /** A hit takes exactly `GuardDamage`, and kills the player when nothing is left. */
  lemma HitDamages(p: Player, now: real)
    ensures !p.dead && p.health - GuardDamage <= 0.0 ==> Hit(p, now).dead && Hit(p, now).health == 0.0
    ensures p.health - GuardDamage > 0.0 ==> Hit(p, now) == p.(health := p.health - GuardDamage)
    ensures Hit(p, now).position == p.position
  {
  }

  /** Attack cooldowns stay within `0..GuardAttackCooldown`. */
  lemma GuardTurnKeepsCooldownInRange(m: Grid, pk: Pack, i: nat, now: real)
    requires Rectangular(m) && i < |pk.eepers|
    requires 0 <= pk.eepers[i].attackCooldown <= GuardAttackCooldown
    ensures 0 <= GuardTurn(m, pk, i, now).eepers[i].attackCooldown <= GuardAttackCooldown
  {
  }

  /**
   * Over the whole eepers' turn, the eepers that were dead or are not guards are left
   * exactly as they were, and the kind and size of every eeper is kept.
   */
  lemma {:induction false} UpdateLeavesOthers(m: Grid, pk: Pack, i: nat, now: real)
    requires Rectangular(m) && i <= |pk.eepers|
    ensures var r := UpdateFrom(m, pk, i, now);
            && (forall j :: 0 <= j < |pk.eepers| && (pk.eepers[j].dead || pk.eepers[j].kind != EeperGuard) ==>
                  r.eepers[j] == pk.eepers[j])
            && (forall j :: 0 <= j < |pk.eepers| ==> r.eepers[j].kind == pk.eepers[j].kind && r.eepers[j].size == pk.eepers[j].size)
            && (forall j :: 0 <= j < i ==> r.eepers[j] == pk.eepers[j])
    decreases |pk.eepers| - i
  {
    if i < |pk.eepers| {
      var e := pk.eepers[i];
      var next := if !e.dead && e.kind == EeperGuard then GuardTurn(m, pk, i, now) else pk;
      if !e.dead && e.kind == EeperGuard {
        GuardTurnTouchesOnlyItself(m, pk, i, now);
      }
      UpdateLeavesOthers(m, next, i + 1, now);
    }
  }

  /** Over the whole eepers' turn, every live guard without health is dead afterwards. */
  lemma {:induction false} UpdateBuriesHealthless(m: Grid, pk: Pack, i: nat, now: real)
    requires Rectangular(m) && i <= |pk.eepers|
    ensures var r := UpdateFrom(m, pk, i, now);
            forall j :: i <= j < |pk.eepers| && pk.eepers[j].kind == EeperGuard && pk.eepers[j].health <= 0.0 ==>
              r.eepers[j].dead
    decreases |pk.eepers| - i
  {
    if i < |pk.eepers| {
      var e := pk.eepers[i];
      var next := if !e.dead && e.kind == EeperGuard then GuardTurn(m, pk, i, now) else pk;
      if !e.dead && e.kind == EeperGuard {
        GuardTurnTouchesOnlyItself(m, pk, i, now);
      }
      UpdateBuriesHealthless(m, next, i + 1, now);
      UpdateLeavesOthers(m, next, i + 1, now);
    }
  }

  /** The eepers' turn never moves the player and never brings a dead player back. */
  lemma {:induction false} UpdateKeepsPlayerPlace(m: Grid, pk: Pack, i: nat, now: real)
    requires Rectangular(m) && i <= |pk.eepers|
    ensures var r := UpdateFrom(m, pk, i, now);
            r.player.position == pk.player.position && (pk.player.dead ==> r.player.dead)
    decreases |pk.eepers| - i
  {
    if i < |pk.eepers| {
      var e := pk.eepers[i];
      var next := if !e.dead && e.kind == EeperGuard then GuardTurn(m, pk, i, now) else pk;
      UpdateKeepsPlayerPlace(m, next, i + 1, now);
    }
  }
}
