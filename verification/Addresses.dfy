/** Socket addresses. */
module Addresses {
  import opened Bytes

  /** A `sockaddr_in`, all sixteen bytes of it: the source compares addresses with `memcmp`. */
  datatype Address = Address(family: uint16, port: uint16, ip: uint32, padding: seq<byte>)
}
