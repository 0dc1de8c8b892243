/** A byte as a machine word. */
module Bytes {
  type Byte = bv8
}
