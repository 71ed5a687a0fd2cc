/** Small shared vocabulary: Java's nullable references, and bytes. */
module Wrappers {

  /** A Java reference that may be `null`. */
  datatype Nullable<+T> = Null | NonNull(value: T) {

    /** `x != null ? x : fallback`. */
    function OrElse(fallback: T): T {
      if NonNull? then value else fallback
    }
  }

  /** An unsigned octet, as produced by a charset encoder. */
  type byte = x: int | 0 <= x < 0x100
}
