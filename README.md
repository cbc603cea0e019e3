# Gilded Rose: the daily inventory tick

This project models the nightly update of the Gilded Rose shop's stock. Each item has a
name, a sell-in count (days left before its sell-by date, which may go negative) and a
quality score. One call of `UpdateQuality` is one day: every item the shop holds is
updated in place, in order, by a rule that the item's exact name selects:

- "Sulfuras, Hand of Ragnaros" is legendary. It is never touched.
- "Aged Brie": for a quality in [0, 50], it gains 1 (2 once expired) and never rises
  past 50. A quality above 50 drops to 50 in one tick.
- "Backstage passes to a TAFKAL80ETC concert": for a quality in [0, 50], they gain 1, 2
  or 3 as the concert comes nearer and never rise past 50. A quality above 50 drops to
  50 in one tick. From the concert day on, quality is set to 0.
- Every other name: for a quality in [0, 50], it loses 1 (2 once expired) and never
  falls below 0. A quality below 0 rises to 0 in one tick.

An item is expired when its sell-in, before this tick's decrement, is at most 0. After
the quality step, the sell-in of every item except the legendary one drops by 1.

The project has four files:

- `items.dfy` (module `Items`): the `Item` class, whose fields `name`, `sellIn` and
  `quality` are mutable. It also has the `ItemValue` datatype, which holds an item's
  state at one moment.
- `rules.dfy` (module `Rules`): the rule on values and what is proved about it.
  - The constants `MinQuality = 0` and `MaxQuality = 50`.
  - `HasExpired`, the model of `hasExpired`.
  - `Tick`, one item's update, branch for branch as the source does it.
  - `Ticks`, the same item after n days.
  - `TickAll`, a whole inventory after one day.
  - An independent reference rule, `ReferenceTick`. It classifies the item into one of
    four categories, computes a signed quality delta from the pre-tick sell-in, and
    clamps in the direction of the delta only.
  - Lemmas for the properties below.
- `gilded_rose.dfy` (module `Inventory`): the `GildedRose` class.
  - It holds the caller's items as an `array<Item>`.
  - `UpdateQuality` is the in-place loop.
  - `UpdateItem` is the per-item update. It assigns the item's fields step by step.
  - Both are proved against `Tick`/`TickAll`.
- `scenarios.dfy` (module `Scenarios`): clients that build items, hand them to a
  `GildedRose` and tick, as the test suite does. Their results are proved from the
  engine's contracts alone.

The model follows the code. The code compares names for exact equality, so a name that
starts with "Conjured" gets no special treatment. It falls into the default branch and
decays like an ordinary item. The test suite, by contrast, expects a "Conjured " prefix
to be stripped and the base rule to apply with its quality change doubled: a conjured
ordinary item loses 2 a day, conjured Brie goes from 20 to 22 (GildedRoseTest.cs:375-385),
and a conjured pass from 30 to 32 (GildedRoseTest.cs:447-453). The code does not do
that. `Rules.ConjuredIsOrdinary` and `Scenarios.ConjuredItems` state what the code
actually does.

## Model

| member | source | states |
|---|---|---|
| `Items.Item.constructor` | csharpcore/GildedRoseTest.cs:11 | A new item holds exactly the given name, sell-in and quality. |
| `Inventory.GildedRose.constructor` | csharpcore/GildedRose.cs:12-15 | The engine keeps a reference to the caller's own item list. It does not copy it. |
| `Inventory.GildedRose.UpdateQuality` | csharpcore/GildedRose.cs:17-23 | Given pairwise-distinct item references, every item ends at the one-item rule applied to its own pre-state. The whole inventory's values become `TickAll` of the old values. An empty inventory is left as it is. |
| `Inventory.GildedRose.UpdateItem` | csharpcore/GildedRose.cs:25-68 | The item's new state (name, sell-in, quality) is `Tick` of its old state. Only this item is modified. |
| `Rules.Ticks` | csharpcore/GildedRose.cs:25-68 | No number of ticks ever changes an item's name. |
| `Rules.TickAll` | csharpcore/GildedRose.cs:17-23 | One inventory tick keeps the length, and puts at each position the one-item tick of the item that was there. |
| `Rules.TickMatchesReference` | csharpcore/GildedRose.cs:25-68 | For every item, the branch-by-branch rule equals the category rule. Legendary items are unchanged. Brie moves +1/+2, passes +1/+2/+3 or are reset to 0, everything else moves −1/−2. Rises are capped at 50, falls floored at 0, and sell-in then drops by 1. |
| `Rules.SulfurasUnchanged` | csharpcore/GildedRose.cs:27-67 | The legendary item's quality and sell-in are unchanged after a tick, whatever their values. |
| `Rules.TickCountsDown` | csharpcore/GildedRose.cs:64-67 | The name never changes. Every other item's sell-in drops by exactly 1, with no lower bound. The legendary item's sell-in stays. |
| `Rules.AgedBrieRule` | csharpcore/GildedRose.cs:32-35 | Brie's new quality is min(50, q+1) while the pre-tick sell-in is positive, otherwise min(50, q+2). |
| `Rules.BackstageRule` | csharpcore/GildedRose.cs:38-55 | A pass's new quality is min(50, q+1) above 10 days, min(50, q+2) for 6 to 10, and min(50, q+3) for 1 to 5. From 0 days down it is exactly 0. |
| `Rules.OrdinaryRule` | csharpcore/GildedRose.cs:57-61 | Any other name's new quality is max(0, q−1) while the pre-tick sell-in is positive, otherwise max(0, q−2). |
| `Rules.ConjuredIsOrdinary` | csharpcore/GildedRose.cs:57-61 | A name beginning "Conjured " is classified as ordinary and decays by 1 (2 once expired), floored at 0. |
| `Rules.QualityStaysInRange` | csharpcore/GildedRose.cs:33-60 | A quality in [0, 50] before a tick is in [0, 50] after it. |
| `Rules.QualityStepBounded` | csharpcore/GildedRose.cs:32-61 | For Brie and ordinary items in range, one tick changes quality by at most 2. Brie never goes down and an ordinary item never goes up. |
| `Rules.ClampsAreOneSided` | csharpcore/GildedRose.cs:33-60 | The clamp acts only in the direction the item moves. A quality outside the range on the opposite side is not pulled back: Brie at −5 goes to −4, an ordinary item at 60 goes to 59. A quality outside on the side it moves toward reaches the bound in one tick: Brie at 60 and a pass at 60 go to 50, an ordinary item at −10 goes to 0. The legendary item at 80 stays 80. |
| `Rules.ExpiryUsesPreTickSellIn` | csharpcore/GildedRose.cs:69-72 | `HasExpired` (`hasExpired`, sell-in at most 0) reads the sell-in before the decrement. A non-legendary item is seen as expired on the next tick exactly when its sell-in was at most 1. On the tick from sell-in 1 to 0, Brie still gains 1, an ordinary item still loses 1, and a pass still gains 3. |
| `Rules.TicksCompose` | csharpcore/GildedRose.cs:17-23 | m ticks followed by n ticks are m + n ticks. |
| `Rules.SulfurasNeverChanges` | csharpcore/GildedRose.cs:27-67 | The legendary item is unchanged after any number of ticks. |
| `Rules.TicksCountDown` | csharpcore/GildedRose.cs:64-67 | After n ticks, any non-legendary item's sell-in is exactly n lower. |
| `Rules.QualityStaysInRangeForever` | csharpcore/GildedRose.cs:9-10 | A quality in [MinQuality, MaxQuality] stays in that range for any number of ticks. |
| `Rules.BackstageWorthlessAfterConcert` | csharpcore/GildedRose.cs:47-54 | A pass at sell-in s ≥ 0 has quality 0 after s + 1 ticks, whatever its starting quality. |
| `Rules.BackstageStaysWorthless` | csharpcore/GildedRose.cs:51-54 | A pass whose sell-in is at most 0 has quality 0 after every later tick, and its sell-in keeps falling by 1 a day. |
| `Rules.TickAllAppend` | csharpcore/GildedRose.cs:19-22 | Items do not affect each other. Ticking an inventory split in two equals ticking each part and joining the results. |
| `Rules.InventoryStaysInRange` | csharpcore/GildedRose.cs:17-23 | If every item of an inventory is in [0, 50], every item is still in [0, 50] after a tick. |
| `Scenarios.RegularExpiryEdgeCase` | csharpcore/GildedRoseTest.cs:41-52 | An ordinary item at sell-in 1 and quality 20 is at (0, 19) after one day and at (−1, 17) after two. |
| `Scenarios.MultiItemInventory` | csharpcore/GildedRoseTest.cs:81-93 | Two ordinary items ticked together end at qualities 0 and 2, each computed from its own state. |
| `Scenarios.ConjuredItems` | csharpcore/GildedRoseTest.cs:565-574 | "ConjuredMagicalChicken" (10, 30) goes to (9, 29). "Conjured Just a regular item…" (10, 20) goes to (9, 19), not the (9, 18) that the test at GildedRoseTest.cs:308-316 expects. |
| `Scenarios.OneTickExamples` | csharpcore/GildedRoseTest.cs:19-274 | Exact one-tick results for an ordinary item (10, 20), Brie at expiry (0, 30) and just below the cap (0, 49), passes at 11, 10, 5 and 0 days, and the legendary item at (−5, 80). |

## Left out

- Integer width: sell-in and quality are unbounded integers. The 32-bit wrap-around of
  `SellIn -= 1` at the smallest int, or of `Quality + 3` near the largest, is not modelled.
- `Inventory.GildedRose.UpdateQuality`: requires pairwise-distinct item references. With
  the same object in the list twice, the code would tick it twice. The model does not
  cover that case.
- The caller's `IList<Item>` is modelled as a fixed-length `array<Item>`. The list is
  never resized during a tick, and enumeration-modification errors cannot arise.
- Conjured doubling and "Conjured " prefix stripping: the tests at
  GildedRoseTest.cs:308-562 assert them. The code does not implement them, and the
  model follows the code.
- The xUnit test harness itself. Individual assertions appear only as the concrete
  scenarios above.
- `Item` is declared outside GildedRose.cs. It is modelled from its uses at
  GildedRose.cs:27, 33 and 66 as a class with three mutable fields.
- Null references: the model's item list is never null, holds no null element, and a
  name is never null.
  - In C#, a null `Items` list makes the `foreach` at GildedRose.cs:19 throw
    NullReferenceException before any item is ticked.
  - A null element makes `switch (item.Name)` at GildedRose.cs:27 throw
    NullReferenceException. The items before it have already been ticked; those after
    it have not.
  - A null `Name` falls to the default branch (GildedRose.cs:57-61). Its sell-in is then
    decremented at GildedRose.cs:66, like an ordinary item's.
  - None of these cases is modelled.
