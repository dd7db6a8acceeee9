/** `LatestPendingIntentStore`: a single cell holding the most recent
    notification key and its `PendingIntent`. */
module LatestPendingIntentStore {
  import opened Wrappers

  /** The saved pair; `P` stands for `PendingIntent`, compared by identity. */
  datatype Saved<P> = Saved(key: string, pi: P)

  class Store<P> {
    /** The `AtomicReference`'s value. */
    var ref: Option<Saved<P>>

    constructor()
      ensures ref.None?
    {
      ref := None;
    }

    /** `saveLatest(key, pi)`: a null intent is ignored; otherwise the pair
        replaces whatever was saved. */
    method SaveLatest(key: string, pi: Option<P>)
      modifies this
      ensures pi.None? ==> ref == old(ref)
      ensures pi.Some? ==> ref == Some(Saved(key, pi.value))
    {
      if pi.None? {
        return;
      }
      ref := Some(Saved(key, pi.value));
    }

    /** `peek()`: reads the cell and leaves it as it is. */
    method Peek() returns (r: Option<Saved<P>>)
      ensures r == ref
    {
      r := ref;
    }

    /** `getAndClearLatest()`: hands out the saved pair and empties the cell,
        so a second call answers null. */
    method GetAndClearLatest() returns (r: Option<Saved<P>>)
      modifies this
      ensures r == old(ref) && ref.None?
    {
      r := ref;
      ref := None;
    }

    /** `clear()`. */
    method Clear()
      modifies this
      ensures ref.None?
    {
      ref := None;
    }
  }
}
