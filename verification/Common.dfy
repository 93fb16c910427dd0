/** Types shared by the modules of the worker. */
module Common {

  datatype Option<+T> = None | Some(value: T)

  /** What becomes of a transaction: it commits, or it fails with its effect lost or kept. */
  datatype Fault = NoFault | LostBeforeCommit | LostAfterCommit
}
