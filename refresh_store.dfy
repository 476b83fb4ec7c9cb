/** The global store: a single `refresh` flag that pages toggle to make others re-fetch. */
module RefreshStore {
  class GlobalStore {
    var refresh: bool

    constructor ()
      ensures !refresh
    {
      refresh := false;
    }

    /** toggleRefresh: the flag flips. */
    method ToggleRefresh()
      modifies this
      ensures refresh == !old(refresh)
    {
      refresh := !refresh;
    }

    /** setRefresh: the flag takes the given value, whatever it was. */
    method SetRefresh(value: bool)
      modifies this
      ensures refresh == value
    {
      refresh := value;
    }
  }

  /** Two toggles restore the flag. */
  method ToggleTwice(store: GlobalStore)
    modifies store
    ensures store.refresh == old(store.refresh)
  {
    store.ToggleRefresh();
    store.ToggleRefresh();
  }

  /** Setting the same value twice is the same as setting it once. */
  method SetTwice(store: GlobalStore, value: bool) returns (once: bool, twice: bool)
    modifies store
    ensures once == twice == value == store.refresh
  {
    store.SetRefresh(value);
    once := store.refresh;
    store.SetRefresh(value);
    twice := store.refresh;
  }
}
