/** Numbers that the kernel program and its user-space partner agree on. */
module Protocols {
  import opened Bytes

  /** Transport protocol numbers of the IPv4 header. */
  const TCP: byte := 6
  const UDP: byte := 17

  /** Size of a flow record. */
  const RECORD_SIZE := 48
}
