/**
 * The daily tick of the Gilded Rose inventory, on values: the rule one call of
 * UpdateItem applies to one item, its repetition over days and over a whole
 * inventory, an independent statement of the same rule in terms of item
 * categories and signed quality deltas, and the properties the shop promises.
 */
module Rules {
  import opened Items

  const Sulfuras: string := "Sulfuras, Hand of Ragnaros"
  const AgedBrie: string := "Aged Brie"
  const BackstagePasses: string := "Backstage passes to a TAFKAL80ETC concert"

  const MinQuality: int := 0
  const MaxQuality: int := 50

  function Min(a: int, b: int): int { if a <= b then a else b }
  function Max(a: int, b: int): int { if a >= b then a else b }

  /** Whether the item is past its sell-by date, judged on the sell-in value before the decrement. */
  predicate HasExpired(v: ItemValue)
  {
    v.sellIn <= 0
  }

  /** The quality range every item other than the legendary one is meant to stay in. */
  predicate InRange(quality: int)
  {
    MinQuality <= quality <= MaxQuality
  }

  /**
   * One day's update of one item, branch for branch as UpdateItem does it:
   * the item is selected by exact name equality, quality moves with
   * one-sided clamps, and then sell-in drops by one unless the item is
   * the legendary one.
   */
  function Tick(v: ItemValue): ItemValue
  {
    var quality :=
      if v.name == Sulfuras then
        v.quality
      else if v.name == AgedBrie then
        if !HasExpired(v) then Min(MaxQuality, v.quality + 1) else Min(MaxQuality, v.quality + 2)
      else if v.name == BackstagePasses then
        if v.sellIn > 10 then Min(MaxQuality, v.quality + 1)
        else if v.sellIn > 5 then Min(MaxQuality, v.quality + 2)
        else if v.sellIn > 0 then Min(MaxQuality, v.quality + 3)
        else 0
      else
        if !HasExpired(v) then Max(MinQuality, v.quality - 1) else Max(MinQuality, v.quality - 2);
    var sellIn := if v.name != Sulfuras then v.sellIn - 1 else v.sellIn;
    ItemValue(v.name, sellIn, quality)
  }

  /** The item after n consecutive daily ticks. */
  function Ticks(v: ItemValue, n: nat): (r: ItemValue)
    ensures r.name == v.name
    decreases n
  {
    if n == 0 then v else Ticks(Tick(v), n - 1)
  }

  /** A whole inventory after one tick, each item updated in order. */
  function TickAll(s: seq<ItemValue>): (r: seq<ItemValue>)
    ensures |r| == |s|
    ensures forall k :: 0 <= k < |s| ==> r[k] == Tick(s[k])
  {
    if s == [] then [] else [Tick(s[0])] + TickAll(s[1..])
  }

  // ---------------------------------------------------------------------
  // An independent statement of the rule: classify the item once, compute
  // a signed quality delta from the pre-tick sell-in, and clamp only in the
  // direction the delta moves.
  // ---------------------------------------------------------------------

  datatype Category = Legendary | Appreciating | EventTicket | Ordinary

  /** Classification by exact name; every unknown name is ordinary. */
  function CategoryOf(name: string): Category
  {
    if name == Sulfuras then Legendary
    else if name == AgedBrie then Appreciating
    else if name == BackstagePasses then EventTicket
    else Ordinary
  }

  /** The signed change of quality one tick makes before clamping. */
  function Delta(c: Category, sellIn: int, quality: int): int
  {
    match c
    case Legendary => 0
    case Appreciating => if sellIn > 0 then 1 else 2
    case EventTicket =>
      if sellIn > 10 then 1
      else if sellIn > 5 then 2
      else if sellIn > 0 then 3
      else -quality
    case Ordinary => if sellIn > 0 then -1 else -2
  }

  /** A rise is capped at the maximum, a fall is floored at the minimum. */
  function ApplyDelta(quality: int, delta: int): int
  {
    if delta > 0 then Min(MaxQuality, quality + delta)
    else if delta < 0 then Max(MinQuality, quality + delta)
    else quality
  }

  function ReferenceTick(v: ItemValue): ItemValue
  {
    match CategoryOf(v.name)
    case Legendary => v
    case c => ItemValue(v.name, v.sellIn - 1, ApplyDelta(v.quality, Delta(c, v.sellIn, v.quality)))
  }

  // ---------------------------------------------------------------------
  // Properties of one tick
  // ---------------------------------------------------------------------

  /** The branch-by-branch rule and the category/delta rule agree on every item. */
  lemma TickMatchesReference(v: ItemValue)
    ensures Tick(v) == ReferenceTick(v)
  {
  }

  /** The legendary item keeps its quality and sell-in, whatever they are. */
  lemma SulfurasUnchanged(v: ItemValue)
    requires v.name == Sulfuras
    ensures Tick(v) == v
  {
  }

  /** The name is never changed; every other item's sell-in drops by exactly one, without a lower bound. */
  lemma TickCountsDown(v: ItemValue)
    ensures Tick(v).name == v.name
    ensures v.name != Sulfuras ==> Tick(v).sellIn == v.sellIn - 1
    ensures v.name == Sulfuras ==> Tick(v).sellIn == v.sellIn
  {
  }

  /**
   * Aged Brie rises by one point, two once expired, capped at the maximum: a
   * quality above the maximum drops to it.
   */
  lemma AgedBrieRule(v: ItemValue)
    requires v.name == AgedBrie
    ensures Tick(v).quality == Min(MaxQuality, v.quality + (if v.sellIn > 0 then 1 else 2))
  {
  }

  /** Backstage passes gain more the nearer the concert and are worth nothing from the concert day on. */
  lemma BackstageRule(v: ItemValue)
    requires v.name == BackstagePasses
    ensures v.sellIn > 10 ==> Tick(v).quality == Min(MaxQuality, v.quality + 1)
    ensures 5 < v.sellIn <= 10 ==> Tick(v).quality == Min(MaxQuality, v.quality + 2)
    ensures 0 < v.sellIn <= 5 ==> Tick(v).quality == Min(MaxQuality, v.quality + 3)
    ensures v.sellIn <= 0 ==> Tick(v).quality == 0
  {
  }

  /**
   * Every other name, a "Conjured" one included, falls by one point, two once
   * expired, floored at the minimum: a quality below the minimum rises to it.
   */
  lemma OrdinaryRule(v: ItemValue)
    requires v.name !in {Sulfuras, AgedBrie, BackstagePasses}
    ensures Tick(v).quality == Max(MinQuality, v.quality - (if v.sellIn > 0 then 1 else 2))
  {
  }

  /** A name that merely begins with "Conjured " is not recognised and decays like an ordinary item. */
  lemma ConjuredIsOrdinary(v: ItemValue)
    requires |v.name| >= 9 && v.name[..9] == "Conjured "
    ensures CategoryOf(v.name) == Ordinary
    ensures Tick(v).quality == Max(MinQuality, v.quality - (if v.sellIn > 0 then 1 else 2))
  {
    assert v.name[0] == 'C';
  }

  /** A quality inside the range stays inside it. */
  lemma QualityStaysInRange(v: ItemValue)
    requires InRange(v.quality)
    ensures InRange(Tick(v).quality)
  {
  }

  /**
   * For Aged Brie and ordinary items inside the range, one tick moves
   * quality by at most two points, in the item's own direction.
   */
  lemma QualityStepBounded(v: ItemValue)
    requires InRange(v.quality)
    requires CategoryOf(v.name) in {Appreciating, Ordinary}
    ensures CategoryOf(v.name) == Appreciating ==> v.quality <= Tick(v).quality <= v.quality + 2
    ensures CategoryOf(v.name) == Ordinary ==> v.quality - 2 <= Tick(v).quality <= v.quality
  {
  }

  /**
   * The clamps act only in the direction the item moves: a quality outside
   * the range on the opposite side is not pulled back, while one outside on
   * the side it moves toward is brought to the bound in a single tick.
   */
  lemma ClampsAreOneSided()
    ensures Tick(ItemValue(AgedBrie, 5, -5)).quality == -4
    ensures Tick(ItemValue("Ordinary", 5, 60)).quality == 59
    ensures Tick(ItemValue(AgedBrie, 5, 60)).quality == 50
    ensures Tick(ItemValue(BackstagePasses, 20, 60)).quality == 50
    ensures Tick(ItemValue("Ordinary", 5, -10)).quality == 0
    ensures Tick(ItemValue(Sulfuras, 5, 80)).quality == 80
  {
  }

  /**
   * Expiry is judged on the sell-in before this tick's decrement: on the day
   * an item's sell-in goes from 1 to 0 it still changes at the unexpired rate,
   * and only the following tick sees it as expired.
   */
  lemma ExpiryUsesPreTickSellIn(v: ItemValue)
    requires v.name != Sulfuras
    ensures HasExpired(Tick(v)) <==> v.sellIn <= 1
    ensures v.sellIn == 1 && v.name == AgedBrie ==> Tick(v).quality == Min(MaxQuality, v.quality + 1)
    ensures v.sellIn == 1 && CategoryOf(v.name) == Ordinary ==> Tick(v).quality == Max(MinQuality, v.quality - 1)
    ensures v.sellIn == 1 && v.name == BackstagePasses ==> Tick(v).quality == Min(MaxQuality, v.quality + 3)
  {
  }

  // ---------------------------------------------------------------------
  // Properties of repeated ticks
  // ---------------------------------------------------------------------

  /** Ticks compose: m days and then n more are m + n days. */
  lemma {:induction false} TicksCompose(v: ItemValue, m: nat, n: nat)
    ensures Ticks(Ticks(v, m), n) == Ticks(v, m + n)
    decreases m
  {
    if m > 0 {
      TicksCompose(Tick(v), m - 1, n);
    }
  }

  /** The legendary item is unchanged after any number of ticks. */
  lemma {:induction false} SulfurasNeverChanges(v: ItemValue, n: nat)
    requires v.name == Sulfuras
    ensures Ticks(v, n) == v
    decreases n
  {
    if n > 0 {
      SulfurasNeverChanges(Tick(v), n - 1);
    }
  }

  /** Any other item's sell-in after n ticks is exactly n lower. */
  lemma {:induction false} TicksCountDown(v: ItemValue, n: nat)
    requires v.name != Sulfuras
    ensures Ticks(v, n).sellIn == v.sellIn - n
    decreases n
  {
    if n > 0 {
      TicksCountDown(Tick(v), n - 1);
    }
  }

  /** A quality inside the range stays inside it for any number of ticks. */
  lemma {:induction false} QualityStaysInRangeForever(v: ItemValue, n: nat)
    requires InRange(v.quality)
    ensures InRange(Ticks(v, n).quality)
    decreases n
  {
    if n > 0 {
      QualityStaysInRange(v);
      QualityStaysInRangeForever(Tick(v), n - 1);
    }
  }

  /** Once the concert has come, a backstage pass is worth nothing on every later day. */
  lemma {:induction false} BackstageStaysWorthless(v: ItemValue, n: nat)
    requires v.name == BackstagePasses && v.sellIn <= 0
    requires n >= 1
    ensures Ticks(v, n).quality == 0
    ensures Ticks(v, n).sellIn == v.sellIn - n
    decreases n
  {
    if n > 1 {
      BackstageStaysWorthless(Tick(v), n - 1);
    }
  }

  /** A pass bought s >= 0 days before the concert is worth nothing after s + 1 ticks. */
  lemma BackstageWorthlessAfterConcert(v: ItemValue)
    requires v.name == BackstagePasses && v.sellIn >= 0
    ensures Ticks(v, v.sellIn + 1).quality == 0
  {
    var day := Ticks(v, v.sellIn);
    TicksCountDown(v, v.sellIn);
    TicksCompose(v, v.sellIn, 1);
    BackstageStaysWorthless(day, 1);
  }

  // ---------------------------------------------------------------------
  // Properties of a whole inventory
  // ---------------------------------------------------------------------

  /** Items do not affect one another: ticking a split inventory is ticking each part. */
  lemma TickAllAppend(s: seq<ItemValue>, t: seq<ItemValue>)
    ensures TickAll(s + t) == TickAll(s) + TickAll(t)
  {
  }

  /** When every item of an inventory is inside the range, every item is inside it after a tick. */
  lemma InventoryStaysInRange(s: seq<ItemValue>)
    requires forall k :: 0 <= k < |s| ==> InRange(s[k].quality)
    ensures forall k :: 0 <= k < |s| ==> InRange(TickAll(s)[k].quality)
  {
    forall k | 0 <= k < |s|
      ensures InRange(TickAll(s)[k].quality)
    {
      QualityStaysInRange(s[k]);
    }
  }
}
