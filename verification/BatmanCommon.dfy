// What the kernel module's files share.
module BatmanCommon {

  const TQ_MAX := 255
  const WINDOW := 64
  const EXPECTED_SEQNO_RANGE := 65536
  const RESET_PROTECTION_MS := 30000

  /** An Ethernet address: the first four bytes and the last two. */
  datatype Mac = Mac(head: bv32, tail: bv16)

  /** batadv_has_timed_out, on a clock that does not wrap. */
  predicate HasTimedOut(timestamp: int, timeout: int, now: int) {
    now > timestamp + timeout
  }
}
