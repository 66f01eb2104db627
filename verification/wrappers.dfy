/** Optional values: a free cell, a hint, a pick-up that may hold nothing. */
module Wrappers {

  /** `None` stands for JavaScript's `null`/`undefined` where the game uses them as "nothing here". */
  datatype Option<+T> = None | Some(value: T)
}
