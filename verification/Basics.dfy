module Basics {

  type Bytes = seq<bv8>

  /** A point in time, in microseconds. */
  type DateTime = int
}
