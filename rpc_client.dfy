/**
 * The read-only ledger client: it looks receipts up over JSON-RPC, refuses
 * to submit anything, and, when a contract address is configured, counts a
 * transaction as confirmed only if the contract emitted a log in it.
 */
module RpcClient {
  import opened Wrappers
  import opened Faults
  import opened Json
  import opened Blockchain
  import opened PhpStrings

  const ReadOnlyWriteError: string :=
    "RPC-only mode does not support writing transactions. Use server_sign mode or mock mode for testing."

  /** The receipt fields `getReceipt` keeps, each defaulted when the node leaves it out or null. */
  function NormalizeReceipt(receipt: Json, txHash: string): (r: Receipt)
    ensures Get(receipt, "transactionHash").Some? ==> r.transactionHash == Get(receipt, "transactionHash").value
    ensures Get(receipt, "transactionHash").None? ==> r.transactionHash == JStr(txHash)
    ensures Get(receipt, "status").Some? ==> r.status == Get(receipt, "status").value
    ensures Get(receipt, "status").None? ==> r.status == JStr(FailureStatus)
    ensures r.blockNumber == if Get(receipt, "blockNumber").Some? then Get(receipt, "blockNumber").value else JNull
    ensures Get(receipt, "logs").Some? ==> r.logs == Get(receipt, "logs").value
    ensures Get(receipt, "logs").None? ==> r.logs == JArr([])
  {
    Receipt(
      Get(receipt, "transactionHash").GetOr(JStr(txHash)),
      Get(receipt, "status").GetOr(JStr(FailureStatus)),
      Get(receipt, "blockNumber").GetOr(JNull),
      Get(receipt, "logs").GetOr(JArr([])))
  }

  /** `isset($log['address']) && strtolower($log['address']) === $contractLower` */
  predicate LogFromContract(log: Json, contractLower: string) {
    match Get(log, "address")
    case Some(JStr(a)) => ToLower(a) == contractLower
    case _ => false
  }

  /** The `foreach` over the receipt's logs that returns on the first log the contract emitted. */
  function AnyLogFromContract(logs: seq<Json>, contractLower: string): (found: bool)
    ensures found <==> exists i | 0 <= i < |logs| :: LogFromContract(logs[i], contractLower)
  {
    if logs == [] then false
    else LogFromContract(logs[0], contractLower) || AnyLogFromContract(logs[1..], contractLower)
  }

  datatype RpcBlockchainClient = RpcBlockchainClient(contractAddress: Option<string>) {

    /** `registerMessage`: this client cannot sign, so every submission fails. */
    function RegisterMessage(msgHash: string): (r: Result<string, Fault>)
      ensures r.Failure? && r.error.Runtime? && r.error.IsException()
    {
      Failure(Runtime(ReadOnlyWriteError))
    }

    /**
     * `getReceipt($txHash)`: the node's receipt with defaults filled in, or
     * None when the call failed or the node has no receipt (yet).
     */
    function GetReceipt(rpc: Rpc, txHash: string): (r: Option<Receipt>)
      ensures var result := ResultOf(rpc("eth_getTransactionReceipt", [JStr(txHash)]));
        && (r.None? <==> result.None?)
        && (r.Some? ==> r.value == NormalizeReceipt(result.value, txHash))
    {
      var result := ResultOf(rpc("eth_getTransactionReceipt", [JStr(txHash)]));
      if result.None? then None else Some(NormalizeReceipt(result.value, txHash))
    }

    /**
     * `isConfirmed($txHash)`: a receipt exists, its status is the string
     * "0x1", and, when a contract address is configured (PHP-truthy), some
     * log's address equals it ignoring case.
     */
    function IsConfirmed(rpc: Rpc, txHash: string): (confirmed: bool)
      ensures var r := GetReceipt(rpc, txHash);
        confirmed <==>
          && r.Some? && Succeeded(r.value)
          && (Truthy(contractAddress) ==>
                exists i | 0 <= i < |Elements(r.value.logs)| ::
                  LogFromContract(Elements(r.value.logs)[i], ToLower(contractAddress.value)))
    {
      var receipt := GetReceipt(rpc, txHash);
      if receipt.None? then false
      else if receipt.value.status != JStr(SuccessStatus) then false
      else if Truthy(contractAddress) then
        AnyLogFromContract(Elements(receipt.value.logs), ToLower(contractAddress.value))
      else true
    }
  }

  /** A configured contract only ever narrows what counts as confirmed. */
  lemma ContractOnlyNarrows(rpc: Rpc, txHash: string, contract: Option<string>)
    ensures RpcBlockchainClient(contract).IsConfirmed(rpc, txHash) ==> RpcBlockchainClient(None).IsConfirmed(rpc, txHash)
    ensures RpcBlockchainClient(contract).GetReceipt(rpc, txHash) == RpcBlockchainClient(None).GetReceipt(rpc, txHash)
  {
  }

  /** A contract address of "" or "0" is not truthy in PHP, so it is the same as none. */
  lemma FalsyContractIsNone(rpc: Rpc, txHash: string)
    ensures RpcBlockchainClient(Some("")).IsConfirmed(rpc, txHash) == RpcBlockchainClient(None).IsConfirmed(rpc, txHash)
    ensures RpcBlockchainClient(Some("0")).IsConfirmed(rpc, txHash) == RpcBlockchainClient(None).IsConfirmed(rpc, txHash)
  {
  }

  /**
   * A node that answers with an error object (and so no `result`) or with
   * `result: null` yields no receipt, and the transaction is not confirmed.
   */
  lemma NoResultNoReceipt(rpc: Rpc, txHash: string, client: RpcBlockchainClient, error: Json)
    requires rpc("eth_getTransactionReceipt", [JStr(txHash)]) == Some(JObj([("jsonrpc", JStr("2.0")), ("id", JInt(1)), ("error", error)]))
          || rpc("eth_getTransactionReceipt", [JStr(txHash)]) == Some(JObj([("jsonrpc", JStr("2.0")), ("id", JInt(1)), ("result", JNull)]))
    ensures client.GetReceipt(rpc, txHash).None? && !client.IsConfirmed(rpc, txHash)
  {
  }

  /**
   * A receipt whose status is missing or null is read as a failed one, so
   * the transaction is not confirmed.
   */
  lemma MissingStatusIsFailure(rpc: Rpc, txHash: string, client: RpcBlockchainClient)
    requires var result := ResultOf(rpc("eth_getTransactionReceipt", [JStr(txHash)]));
      result.Some? && Get(result.value, "status").None?
    ensures client.GetReceipt(rpc, txHash).Some?
    ensures client.GetReceipt(rpc, txHash).value.status == JStr(FailureStatus)
    ensures !client.IsConfirmed(rpc, txHash)
  {
  }
}
