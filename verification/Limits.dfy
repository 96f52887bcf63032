/** The fixed bounds of src/limits.rs, and the chunk size both event loops read with. */
module Limits {
  const IPC_HEADER_BYTES := 5
  const MAX_IPC_PAYLOAD_BYTES := 64 * 1024
  const MAX_IPC_RECORD_BYTES := IPC_HEADER_BYTES + MAX_IPC_PAYLOAD_BYTES
  const MAX_ATTACHMENT_QUEUE_BYTES := 1024 * 1024
  const OUTPUT_TAIL_BYTES := 256 * 1024
  const MAX_TERMINAL_DIMENSION := 4096
  const MAX_SESSION_LIST_ENTRIES := 1024
  const MAX_COMMAND_ARGUMENTS := 256
  const MAX_COMMAND_BYTES := 64 * 1024
  const MAX_PTY_BYTES_PER_TICK := 256 * 1024
  const COMPLETED_RETENTION_SECONDS := 24 * 60 * 60
  const IO_CHUNK_BYTES := 16 * 1024
}
