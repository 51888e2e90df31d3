/**
 * Portal opening and lookup (pkg/game/portal.go): a portal opens while the player is
 * within three cells of its centre and closes otherwise; a position is looked up in
 * the portals in order.
 */
module Portals {
  import opened Wrappers
  import opened Geometry
  import opened Entities

  /** The squared distance below which a portal opens. */
  const PortalOpenDistance: int := 9
  const PortalOpenSpeed: real := 0.15
  const PortalCloseSpeed: real := 0.15

  /** A portal after one update of its opening animation. */
  function Progressed(p: Portal, playerPos: IVector2): Portal {
    if p.DistanceToPlayer(playerPos) < PortalOpenDistance then
      var up := p.openProgress + PortalOpenSpeed;
      p.(openProgress := if up > 1.0 then 1.0 else up)
    else
      var down := p.openProgress - PortalCloseSpeed;
      p.(openProgress := if down < 0.0 then 0.0 else down)
  }

  /** All portals after `UpdatePortals`. */
  function UpdateAll(ps: seq<Portal>, playerPos: IVector2): seq<Portal> {
    seq(|ps|, i requires 0 <= i < |ps| => Progressed(ps[i], playerPos))
  }

  predicate ProgressInRange(p: Portal) {
    0.0 <= p.openProgress <= 1.0
  }

  /**
   * An update keeps the open progress in `[0, 1]`, moves it towards open by at most
   * the open speed while the player is near and towards closed by at most the close
   * speed otherwise, and changes nothing else about the portal.
   */
  lemma ProgressedStaysInRange(p: Portal, playerPos: IVector2)
    requires ProgressInRange(p)
    ensures ProgressInRange(Progressed(p, playerPos))
    ensures Progressed(p, playerPos).(openProgress := p.openProgress) == p
    ensures p.DistanceToPlayer(playerPos) < PortalOpenDistance ==>
              p.openProgress <= Progressed(p, playerPos).openProgress <= p.openProgress + PortalOpenSpeed
    ensures p.DistanceToPlayer(playerPos) < PortalOpenDistance && p.openProgress < 1.0 - PortalOpenSpeed ==>
              Progressed(p, playerPos).openProgress == p.openProgress + PortalOpenSpeed
    ensures p.DistanceToPlayer(playerPos) >= PortalOpenDistance ==>
              p.openProgress - PortalCloseSpeed <= Progressed(p, playerPos).openProgress <= p.openProgress
    ensures p.DistanceToPlayer(playerPos) >= PortalOpenDistance && p.openProgress > PortalCloseSpeed ==>
              Progressed(p, playerPos).openProgress == p.openProgress - PortalCloseSpeed
  {
  }

  /** `UpdatePortals` keeps the count, ids, centres, cells and activation of every portal and all progress in range. */
  lemma UpdateAllKeepsPortals(ps: seq<Portal>, playerPos: IVector2)
    ensures |UpdateAll(ps, playerPos)| == |ps|
    ensures forall i :: 0 <= i < |ps| ==> UpdateAll(ps, playerPos)[i].(openProgress := ps[i].openProgress) == ps[i]
    ensures (forall i :: 0 <= i < |ps| ==> ProgressInRange(ps[i])) ==>
              forall i :: 0 <= i < |ps| ==> ProgressInRange(UpdateAll(ps, playerPos)[i])
  {
    forall i | 0 <= i < |ps|
      ensures ProgressInRange(ps[i]) ==> ProgressInRange(UpdateAll(ps, playerPos)[i])
      ensures UpdateAll(ps, playerPos)[i].(openProgress := ps[i].openProgress) == ps[i]
    {
      if ProgressInRange(ps[i]) {
        ProgressedStaysInRange(ps[i], playerPos);
      }
    }
  }

  /** The index of the first portal from `from` on whose cells hold `pos`. */
  function PortalAtFrom(ps: seq<Portal>, pos: IVector2, from: nat): (r: Option<nat>)
    requires from <= |ps|
    ensures r.Some? ==> from <= r.value < |ps| && pos in ps[r.value].cells
    ensures r.Some? ==> forall j :: from <= j < r.value ==> pos !in ps[j].cells
    ensures r.None? <==> forall j :: from <= j < |ps| ==> pos !in ps[j].cells
    decreases |ps| - from
  {
    if from == |ps| then None
    else if pos in ps[from].cells then Some(from)
    else PortalAtFrom(ps, pos, from + 1)
  }

  /** The index of the first portal whose cells hold `pos`, if any. */
  function PortalAt(ps: seq<Portal>, pos: IVector2): Option<nat> {
    PortalAtFrom(ps, pos, 0)
  }
}
