/** The sizes client and receiver agree on. */
module Protocol {

  const BLOCK_SIZE := 0x10_0000
  const QUEUE_CAPACITY := 256
  const QUEUE_ENTRY_MAX_PAYLOAD := BLOCK_SIZE + 256
  const BACKPRESSURE_QUEUE_DEPTH := 40
}
