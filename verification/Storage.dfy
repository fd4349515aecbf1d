/** What the host's storage ports promise and how a call on one can fail. The ports are
    the host's; streams never shrink, and every document write gets a fresh version. */
module Storage {

  /** Records or rows asked for at a time (`PAGE_SIZE`). */
  const PAGE_SIZE: nat := 128

  /** The completion document of one migration step: absent, well formed, or anything else. */
  datatype Marker = NoMarker | ValidMarker | ForeignMarker

  /** How a port call goes wrong. A write may have been committed although its caller is
      told it was not. */
  datatype Fault = Clean | Conflict(committed: bool) | Backend(committed: bool)

  datatype Error = ConflictError | BackendError

  function ErrorOf(fault: Fault): Error
    requires !fault.Clean?
  {
    if fault.Conflict? then ConflictError else BackendError
  }
}
