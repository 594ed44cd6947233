/** The shared failure taxonomy of the node client and the wrappers that
    carry it (node_interface.rs:10-36). */
module Errors {

  datatype Option<+T> = None | Some(value: T)

  /** Every failure a node operation can report.  `InvalidScanId` is used by
      the scan-id parser in types.rs but is missing from the source's enum;
      the model adds it. */
  datatype NodeError =
    | NodeUnreachable
    | FailedParsingNodeResponse(message: string)
    | FailedParsingBox(message: string)
    | NoBoxesFound
    | InsufficientErgsBalance
    | FailedRegisteringScan(message: string)
    | BadRequest(message: string)
    | NoAddressesInWallet
    | NodeSyncing
    | YamlError(message: string)
    | InvalidScanId(message: string)
    | Other(message: string)

  /** `Result<T>` of the source: a value or a `NodeError`.  It is
      failure-compatible, so `:-` models Rust's `?`. */
  datatype Result<+T> = Ok(value: T) | Err(error: NodeError) {
    predicate IsFailure() { Err? }

    function PropagateFailure<U>(): Result<U>
      requires Err?
    {
      Err(error)
    }

    function Extract(): T
      requires Ok?
    {
      value
    }
  }
}
