/**
 * What the three ledger clients share: the receipt they return and the
 * constants both sides of the `BlockchainClient` interface agree on.
 */
module Blockchain {
  import opened Json

  /**
   * A transaction receipt as `getReceipt` returns it: the four keys every
   * client fills in, each holding a JSON value.
   */
  datatype Receipt = Receipt(transactionHash: Json, status: Json, blockNumber: Json, logs: Json)

  /** Receipt status of a successful transaction. */
  const SuccessStatus: string := "0x1"

  /** Receipt status of a failed (or, for the mock, not yet mined) transaction. */
  const FailureStatus: string := "0x0"

  /** The strict comparison `$receipt['status'] === '0x1'`. */
  predicate Succeeded(r: Receipt) {
    r.status == JStr(SuccessStatus)
  }
}
