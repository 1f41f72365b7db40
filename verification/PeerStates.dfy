/** The states of one peer in one transfer (internal/transfer/transfer.go:18-49,
    95-104). */
module PeerStates {
  datatype TransferState = Waiting | Accepted | Rejected | InProgress | Completed | Failed | Disconnected

  predicate IsTerminal(s: TransferState) {
    s.Rejected? || s.Completed? || s.Failed? || s.Disconnected?
  }
}
