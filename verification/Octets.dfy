/** Bytes as numbers, for the code that does arithmetic on them. */
module Octets {
  type Octet = x: int | 0 <= x < 0x100
}
