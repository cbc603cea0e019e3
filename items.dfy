/** An inventory item: the record the daily tick reads and updates in place. */
module Items {

  /** The observable state of one item at one moment. */
  datatype ItemValue = ItemValue(name: string, sellIn: int, quality: int)

  /**
   * A shop item. Every field is mutable, as in the C# `Item` class; the tick
   * only ever writes sellIn and quality.
   */
  class Item {
    var name: string
    var sellIn: int
    var quality: int

    constructor (name: string, sellIn: int, quality: int)
      ensures Value() == ItemValue(name, sellIn, quality)
    {
      this.name := name;
      this.sellIn := sellIn;
      this.quality := quality;
    }

    /** The item's current state as a value. */
    function Value(): ItemValue
      reads this
    {
      ItemValue(name, sellIn, quality)
    }
  }
}
