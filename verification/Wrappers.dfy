/** Optional values, in the conventional shape, and settings with a default. */
module Wrappers {
  datatype Option<+T> = None | Some(value: T)

  /** A setting that is missing or not positive falls back to its default. */
  function Or(setting: int, fallback: int): int {
    if setting > 0 then setting else fallback
  }
}
