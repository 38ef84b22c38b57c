/** The codes a wait can fail with (internal/controller/wait.go, mapWaitStoreError). */
module WaitError {
  import opened StoreSpec

  datatype Code = MissingAfter | InvalidAfter | PaneNotFound | PaneClosed | Timeout | InvalidArgs

  /** A Read's error; a pane that this same wait has read before was destroyed meanwhile. */
  function OfRead(known: bool, e: StoreError): Code {
    if e != PaneUnknown then InvalidAfter else if known then PaneClosed else PaneNotFound
  }
}
