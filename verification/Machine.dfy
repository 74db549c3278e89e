/** The machine integers of the implementation and its constants. */
module Machine {
  newtype u32 = x: int | 0 <= x < 0x1_0000_0000
  newtype u64 = x: int | 0 <= x < 0x1_0000_0000_0000_0000

  const MAX_SENDING: nat := 16384
  const DEFAULT_BUFFER_SIZE: nat := 64 * 1024 * 1024
  const MIN_LENGTH_TO_NOTIFY_RELEASE: u32 := 8 * 1024

  /** A registered region whose addresses leave room for one more u32 length. */
  predicate Region(left: u64, right: u64) {
    left <= right && right as int + 0x1_0000_0000 <= 0x1_0000_0000_0000_0000 && right - left < 0x1_0000_0000
  }
}
