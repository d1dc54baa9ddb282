/** Coroutine ids, as `Coroutine::get_current_cid` reports them. */
module Coroutines {
  type Cid = int

  /** The id outside every coroutine. */
  const MAIN: Cid := -1
}
