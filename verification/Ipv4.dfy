/** IPv4 addresses and prefixes. */
module Ipv4 {

  type Addr = a: int | 0 <= a < 0x1_0000_0000

  /** A CIDR as its network address and the number of addresses it spans. */
  datatype Prefix = Prefix(base: Addr, size: nat) {
    predicate Contains(a: Addr) {
      base <= a < base + size
    }
  }

  /** Private space by its first octets: 10/8, 172.16/12, 192.168/16 (section 3 of RFC 1918). */
  predicate IsPrivate(a: Addr) {
    || a / 0x100_0000 == 10
    || a / 0x10_0000 == 172 * 0x10 + 1
    || a / 0x1_0000 == 192 * 0x100 + 168
  }

  function Host(a: Addr): Prefix {
    Prefix(a, 1)
  }
}
