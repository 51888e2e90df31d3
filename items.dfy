/**
 * The per-turn item tick (pkg/game/items.go): every bomb-generator cooldown counts
 * down by one turn and stops at zero.
 */
module Items {
  import opened Entities

  function TickItem(item: Item): Item {
    if item.cooldown > 0 then item.(cooldown := item.cooldown - 1) else item
  }

  /** The items after one `ItemsTurn`. */
  function Tick(items: seq<Item>): seq<Item> {
    seq(|items|, i requires 0 <= i < |items| => TickItem(items[i]))
  }

  /** The items after `k` turns. */
  function TickMany(items: seq<Item>, k: nat): seq<Item>
    decreases k
  {
    if k == 0 then items else TickMany(Tick(items), k - 1)
  }

  function Max(a: int, b: int): int {
    if a < b then b else a
  }

  /**
   * One tick lowers each positive cooldown by exactly one and leaves every other item
   * as it was; the number of items, their kinds and positions never change, and a
   * non-negative cooldown stays non-negative.
   */
  lemma TickChangesOnlyCooldowns(items: seq<Item>)
    ensures |Tick(items)| == |items|
    ensures forall i :: 0 <= i < |items| ==>
              Tick(items)[i].kind == items[i].kind && Tick(items)[i].position == items[i].position
    ensures forall i :: 0 <= i < |items| && items[i].cooldown > 0 ==> Tick(items)[i].cooldown == items[i].cooldown - 1
    ensures forall i :: 0 <= i < |items| && items[i].cooldown <= 0 ==> Tick(items)[i] == items[i]
    ensures forall i :: 0 <= i < |items| && items[i].cooldown >= 0 ==> Tick(items)[i].cooldown >= 0
  {
  }

  /** After `k` turns a non-negative cooldown `c` has become `max(c - k, 0)`; a negative one is untouched. */
  lemma {:induction false} TickManyCooldowns(items: seq<Item>, k: nat)
    ensures |TickMany(items, k)| == |items|
    ensures forall i :: 0 <= i < |items| ==>
              TickMany(items, k)[i].kind == items[i].kind && TickMany(items, k)[i].position == items[i].position
    ensures forall i :: 0 <= i < |items| ==>
              TickMany(items, k)[i].cooldown == if items[i].cooldown >= 0 then Max(items[i].cooldown - k, 0) else items[i].cooldown
    decreases k
  {
    if k > 0 {
      TickManyCooldowns(Tick(items), k - 1);
    }
  }
}
