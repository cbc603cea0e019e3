/** The shop's update engine: it holds the caller's items and ticks them in place. */
module Inventory {
  import opened Items
  import opened Rules

  /** No item object occurs twice in the inventory. */
  ghost predicate Distinct(items: array<Item>)
    reads items
  {
    forall i, j :: 0 <= i < j < items.Length ==> items[i] != items[j]
  }

  /** The values of the items in the inventory, in order. */
  ghost function Values(items: array<Item>): (r: seq<ItemValue>)
    reads items, set k | 0 <= k < items.Length :: items[k]
    ensures |r| == items.Length
  {
    seq(items.Length, k requires 0 <= k < items.Length reads items, set j | 0 <= j < items.Length :: items[j] =>
      items[k].Value())
  }

  class GildedRose {
    var items: array<Item>

    constructor (items: array<Item>)
      ensures this.items == items
    {
      this.items := items;
    }

    /**
     * One day's tick: each item, in order, is updated in place exactly once
     * and ends at the single-item rule applied to its own pre-state.
     */
    method UpdateQuality()
      requires Distinct(items)
      modifies set k | 0 <= k < items.Length :: items[k]
      ensures forall k :: 0 <= k < items.Length ==> items[k].Value() == Tick(old(items[k].Value()))
      ensures Values(items) == TickAll(old(Values(items)))
    {
      var i := 0;
      while i < items.Length
        invariant 0 <= i <= items.Length
        invariant forall k :: 0 <= k < i ==> items[k].Value() == Tick(old(items[k].Value()))
        invariant forall k :: i <= k < items.Length ==> items[k].Value() == old(items[k].Value())
      {
        UpdateItem(items[i]);
        i := i + 1;
      }
    }

    /** Updates one item's quality and then its sell-in, by the rule its name selects. */
    static method UpdateItem(item: Item)
      modifies item
      ensures item.Value() == Tick(old(item.Value()))
    {
      if item.name == Sulfuras {
      } else if item.name == AgedBrie {
        item.quality := if !HasExpired(item.Value())
          then Min(MaxQuality, item.quality + 1)
          else Min(MaxQuality, item.quality + 2);
      } else if item.name == BackstagePasses {
        if item.sellIn > 10 {
          item.quality := Min(MaxQuality, item.quality + 1);
        } else if item.sellIn > 5 {
          item.quality := Min(MaxQuality, item.quality + 2);
        } else if item.sellIn > 0 {
          item.quality := Min(MaxQuality, item.quality + 3);
        } else {
          item.quality := 0;
        }
      } else {
        item.quality := if !HasExpired(item.Value())
          then Max(MinQuality, item.quality - 1)
          else Max(MinQuality, item.quality - 2);
      }

      if item.name != Sulfuras {
        item.sellIn := item.sellIn - 1;
      }
    }
  }
}
