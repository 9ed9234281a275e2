/** Mutable sets of entity IDs. */
module Bitmaps {
  import opened Bytes

  class Bitmap {
    var ids: set<uint64>

    constructor (ids: set<uint64>)
      ensures this.ids == ids
    {
      this.ids := ids;
    }

    method Or(other: Bitmap)
      modifies this
      ensures ids == old(ids) + old(other.ids)
    {
      ids := ids + other.ids;
    }

    method And(other: Bitmap)
      modifies this
      ensures ids == old(ids) * old(other.ids)
    {
      ids := ids * other.ids;
    }

    method AndNot(other: Bitmap)
      modifies this
      ensures ids == old(ids) - old(other.ids)
    {
      ids := ids - other.ids;
    }
  }
}
