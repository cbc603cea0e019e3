/**
 * Concrete days in the shop, driven through the engine's public calls the way
 * a caller would: build items, hand them to a GildedRose, tick. Each result is
 * proved from the contracts of UpdateQuality alone.
 */
module Scenarios {
  import opened Items
  import opened Rules
  import opened Inventory

  /** An ordinary item one day before its sell-by date, ticked twice. */
  method RegularExpiryEdgeCase() returns (first: ItemValue, second: ItemValue)
    ensures first == ItemValue("Just a regular item, nothing to see here", 0, 19)
    ensures second == ItemValue("Just a regular item, nothing to see here", -1, 17)
  {
    var item := new Item("Just a regular item, nothing to see here", 1, 20);
    var items := new Item[] [item];
    var app := new GildedRose(items);
    app.UpdateQuality();
    first := item.Value();
    app.UpdateQuality();
    second := item.Value();
  }

  /** Two ordinary items side by side: each decays from its own state only. */
  method MultiItemInventory() returns (q0: int, q1: int)
    ensures q0 == 0 && q1 == 2
  {
    var a := new Item("Just a regular item, nothing to see here", -5, 1);
    var b := new Item("My friend I assure you this is also just a regular item", 0, 4);
    var items := new Item[] [a, b];
    var app := new GildedRose(items);
    app.UpdateQuality();
    q0, q1 := a.quality, b.quality;
  }

  /**
   * Names that start with "Conjured" are not recognised: both items decay by
   * one point before expiry, as ordinary items do, and not by two.
   */
  method ConjuredItems() returns (chicken: ItemValue, regular: ItemValue)
    ensures chicken == ItemValue("ConjuredMagicalChicken", 9, 29)
    ensures regular == ItemValue("Conjured Just a regular item, nothing to see here", 9, 19)
  {
    var c := new Item("ConjuredMagicalChicken", 10, 30);
    var r := new Item("Conjured Just a regular item, nothing to see here", 10, 20);
    var items := new Item[] [c, r];
    var app := new GildedRose(items);
    app.UpdateQuality();
    chicken, regular := c.Value(), r.Value();
  }

  /** The one-tick examples of every rule. */
  lemma OneTickExamples()
    ensures Tick(ItemValue("Ordinary", 10, 20)) == ItemValue("Ordinary", 9, 19)
    ensures Tick(ItemValue(AgedBrie, 0, 30)) == ItemValue(AgedBrie, -1, 32)
    ensures Tick(ItemValue(AgedBrie, 0, 49)) == ItemValue(AgedBrie, -1, 50)
    ensures Tick(ItemValue(BackstagePasses, 5, 30)) == ItemValue(BackstagePasses, 4, 33)
    ensures Tick(ItemValue(BackstagePasses, 10, 30)) == ItemValue(BackstagePasses, 9, 32)
    ensures Tick(ItemValue(BackstagePasses, 11, 30)) == ItemValue(BackstagePasses, 10, 31)
    ensures Tick(ItemValue(BackstagePasses, 0, 30)) == ItemValue(BackstagePasses, -1, 0)
    ensures Tick(ItemValue(Sulfuras, -5, 80)) == ItemValue(Sulfuras, -5, 80)
  {
  }
}
