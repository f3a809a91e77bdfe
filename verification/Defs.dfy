/** pkg/defs: the constants several packages share. */
module Defs {
  const DEFAULT_MIN_MEM_MB: nat := 16
}
