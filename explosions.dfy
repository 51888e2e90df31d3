/**
 * The explosion timers (pkg/game/explosion.go): each call lowers every timer by
 * one, removes the explosions whose timer has run out, keeping the others in order,
 * and turns the cells of the removed ones back into floor.
 */
module Explosions {
  import opened Geometry
  import opened Entities

  /** How many updates a fresh blast lasts. */
  const ExplosionTimer: int := 20

  function Blast(p: IVector2): Explosion {
    Explosion(p, ExplosionTimer, ExplosionTimer)
  }

  function Decremented(e: Explosion): Explosion {
    e.(timer := e.timer - 1)
  }

  /** Whether an explosion runs out on this update. */
  predicate Expires(e: Explosion) {
    e.timer - 1 <= 0
  }

  /** The explosions left after one update, in their original order. */
  function Survivors(es: seq<Explosion>): seq<Explosion>
    decreases |es|
  {
    if |es| == 0 then []
    else (if Expires(es[0]) then [] else [Decremented(es[0])]) + Survivors(es[1..])
  }

  /** Every explosion lies on the map `g`, as the cell write of an expiring one needs. */
  predicate InMap(g: Grid, es: seq<Explosion>) {
    forall i :: 0 <= i < |es| ==> WithinMap(g, es[i].position)
  }

  /** The cells that one update turns back into floor. */
  function Expired(es: seq<Explosion>): set<IVector2> {
    set e | e in es && Expires(e) :: e.position
  }

  /** The explosions after `k` updates. */
  function SurvivorsAfter(es: seq<Explosion>, k: nat): seq<Explosion>
    decreases k
  {
    if k == 0 then es else SurvivorsAfter(Survivors(es), k - 1)
  }

  lemma ExpiredOfSuffix(es: seq<Explosion>, i: nat)
    requires i < |es|
    ensures Expired(es[i..]) == Expired(es[i + 1..]) + if Expires(es[i]) then {es[i].position} else {}
  {
    assert es[i..] == [es[i]] + es[i + 1..];
    assert forall e :: e in es[i..] <==> e == es[i] || e in es[i + 1..];
  }

  /** The update of a suffix: its first explosion's turn, then the rest. */
  lemma SurvivorsOfSuffix(es: seq<Explosion>, i: nat)
    requires i < |es|
    ensures Survivors(es[i..]) == (if Expires(es[i]) then [] else [Decremented(es[i])]) + Survivors(es[i + 1..])
  {
    assert es[i..][1..] == es[i + 1..];
  }

  /** Updating a concatenation updates each part: survivors keep their relative order. */
  lemma {:induction false} SurvivorsOfConcat(a: seq<Explosion>, b: seq<Explosion>)
    ensures Survivors(a + b) == Survivors(a) + Survivors(b)
    decreases |a|
  {
    if |a| == 0 {
      assert a + b == b;
    } else {
      assert (a + b)[1..] == a[1..] + b;
      SurvivorsOfConcat(a[1..], b);
    }
  }

  /**
   * Every survivor is an explosion of the list that does not expire, with its timer one
   * lower and still positive, and every such explosion survives; the list never grows.
   */
  lemma {:induction false} SurvivorsAreTheUnexpired(es: seq<Explosion>)
    ensures |Survivors(es)| <= |es|
    ensures forall e :: e in Survivors(es) ==> e.timer > 0
    ensures forall e :: e in Survivors(es) <==> exists o :: o in es && !Expires(o) && e == Decremented(o)
    decreases |es|
  {
    if |es| > 0 {
      SurvivorsAreTheUnexpired(es[1..]);
      assert forall o :: o in es <==> o == es[0] || o in es[1..];
    }
  }

  /** An explosion whose timer is `t >= 1` is still there with timer `t - k` after `k < t` updates, and gone after `t`. */
  lemma {:induction false} Lifetime(e: Explosion, k: nat)
    requires 1 <= e.timer && k <= e.timer
    ensures k < e.timer ==> SurvivorsAfter([e], k) == [e.(timer := e.timer - k)]
    ensures k == e.timer ==> SurvivorsAfter([e], k) == []
    decreases k
  {
    if k > 0 {
      Lifetime(e, k - 1);
      var prev := SurvivorsAfter([e], k - 1);
      assert prev == [e.(timer := e.timer - (k - 1))];
      SurvivorsAfterStep([e], k - 1);
      if k < e.timer {
        assert Survivors(prev) == [e.(timer := e.timer - k)];
      } else {
        assert Survivors(prev) == [];
      }
    }
  }

  lemma {:induction false} SurvivorsAfterStep(es: seq<Explosion>, k: nat)
    ensures SurvivorsAfter(es, k + 1) == Survivors(SurvivorsAfter(es, k))
    decreases k
  {
    if k > 0 {
      SurvivorsAfterStep(Survivors(es), k - 1);
    }
  }

  /** A fresh blast is removed on exactly its twentieth update. */
  lemma BlastLastsTwentyUpdates(p: IVector2)
    ensures |SurvivorsAfter([Blast(p)], ExplosionTimer - 1)| == 1
    ensures SurvivorsAfter([Blast(p)], ExplosionTimer) == []
  {
    Lifetime(Blast(p), ExplosionTimer - 1);
    Lifetime(Blast(p), ExplosionTimer);
  }
}
