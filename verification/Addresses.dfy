/** The short addresses that are nobody's own. */
module Addresses {
  const GATEWAY_ADDR: nat := 0
  const BROADCAST: nat := 0xFFFF
}
