/**
 * The signing ledger client: it holds a private key, builds a transaction
 * from node answers (nonce, gas price, gas limit, chain id), signs it
 * locally and broadcasts it. Address derivation and signing are injected
 * functions; every node call goes through the `Rpc` transport.
 */
module ServerSignClient {
  import opened Wrappers
  import opened Faults
  import opened Json
  import opened Blockchain
  import opened PhpStrings
  import opened RpcClient

  /** The gas price floor: 2 gwei, `(int)(2.0 * 1e9)`. */
  const MinGasPriceWei: nat := 2000000000
  const MinGasPriceHex: string := "0x" + DecHex(MinGasPriceWei)
  /** The gas limit of a plain value transfer (21000). */
  const SimpleTransferGas: string := "0x5208"
  /** The gas limit used when estimation fails (100000). */
  const FallbackGas: string := "0x186a0"
  /** Sepolia's chain id (11155111). */
  const SepoliaChainId: string := "0xaa36a7"
  const MainnetChainId: string := "0x1"

  const InvalidKeyMessage: string := "Invalid private key format"
  const NonceError: string := "Failed to get nonce"

  /** What `substr` raises under strict types when the node's `result` is not a string. */
  const NotAStringError: string := "Argument #1 ($string) must be of type string"

  /** An Ethereum quantity as this client writes one: `'0x' . dechex($n)`. */
  function Quantity(n: nat): string {
    "0x" + DecHex(n)
  }

  /** `hexdec(substr($q, 2))`: the value of a quantity (digits after the first two characters). */
  function QuantityValue(q: string): nat {
    HexDec(Drop(q, 2))
  }

  /** Reading back a quantity this client wrote gives the number it encoded. */
  lemma QuantityRoundTrip(n: nat)
    ensures QuantityValue(Quantity(n)) == n
  {
    assert Drop(Quantity(n), 2) == DecHex(n);
    HexDecOfDecHex(n);
  }

  lemma DecHexStep(n: nat)
    requires n >= 16
    ensures DecHex(n) == DecHex(n / 16) + [HexDigit(n % 16)]
  {
  }

  /** The gas price floor written in hex is 0x77359400, which reads back as 2 gwei. */
  lemma {:induction false} MinGasPriceHexValue()
    ensures MinGasPriceHex == "0x77359400" && QuantityValue(MinGasPriceHex) == MinGasPriceWei
  {
    DecHexStep(119); assert DecHex(119) == "77";
    DecHexStep(1907); assert DecHex(1907) == "773";
    DecHexStep(30517); assert DecHex(30517) == "7735";
    DecHexStep(488281); assert DecHex(488281) == "77359";
    DecHexStep(7812500); assert DecHex(7812500) == "773594";
    DecHexStep(125000000); assert DecHex(125000000) == "7735940";
    DecHexStep(2000000000); assert DecHex(2000000000) == "77359400";
    QuantityRoundTrip(MinGasPriceWei);
  }

  /** The fixed gas limit of a plain transfer is 21000. */
  lemma {:induction false} SimpleTransferGasValue()
    ensures SimpleTransferGas == Quantity(21000) && QuantityValue(SimpleTransferGas) == 21000
  {
    DecHexStep(82); assert DecHex(82) == "52";
    DecHexStep(1312); assert DecHex(1312) == "520";
    DecHexStep(21000); assert DecHex(21000) == "5208";
    QuantityRoundTrip(21000);
  }

  /** The fallback gas limit is 100000. */
  lemma {:induction false} FallbackGasValue()
    ensures FallbackGas == Quantity(100000) && QuantityValue(FallbackGas) == 100000
  {
    DecHexStep(24); assert DecHex(24) == "18";
    DecHexStep(390); assert DecHex(390) == "186";
    DecHexStep(6250); assert DecHex(6250) == "186a";
    DecHexStep(100000); assert DecHex(100000) == "186a0";
    QuantityRoundTrip(100000);
  }

  /** Sepolia's chain id is 11155111. */
  lemma {:induction false} SepoliaChainIdValue()
    ensures SepoliaChainId == Quantity(11155111) && QuantityValue(SepoliaChainId) == 11155111
  {
    DecHexStep(170); assert DecHex(170) == "aa";
    DecHexStep(2723); assert DecHex(2723) == "aa3";
    DecHexStep(43574); assert DecHex(43574) == "aa36";
    DecHexStep(697194); assert DecHex(697194) == "aa36a";
    DecHexStep(11155111); assert DecHex(11155111) == "aa36a7";
    QuantityRoundTrip(11155111);
  }

  /** Mainnet's chain id is 1. */
  lemma MainnetChainIdValue()
    ensures MainnetChainId == Quantity(1) && QuantityValue(MainnetChainId) == 1
  {
    QuantityRoundTrip(1);
  }

  // ---------------------------------------------------------------------
  // Key validation
  // ---------------------------------------------------------------------

  /** The constructor's check: after one leading "0x", exactly 64 bytes, all hex digits. */
  predicate ValidPrivateKey(key: string) {
    var clean := Strip0x(key);
    ByteLength(clean) == 64 && IsXDigitString(clean)
  }

  /** A valid key is exactly 64 hex digits, optionally prefixed by "0x". */
  lemma ValidKeyIs64HexDigits(key: string)
    ensures ValidPrivateKey(key) <==>
      |Strip0x(key)| == 64 && forall i | 0 <= i < 64 :: IsHexDigit(Strip0x(key)[i])
  {
    var clean := Strip0x(key);
    if (|clean| == 64 && forall i | 0 <= i < 64 :: IsHexDigit(clean[i])) || IsXDigitString(clean) {
      if IsXDigitString(clean) || |clean| == 64 {
        if forall i | 0 <= i < |clean| :: IsHexDigit(clean[i]) {
          assert IsAscii(clean);
          AsciiByteLength(clean);
        }
      }
    }
  }

  // ---------------------------------------------------------------------
  // Decisions over node answers
  // ---------------------------------------------------------------------

  function PendingCountCall(address: string): seq<Json> {
    [JStr(address), JStr("pending")]
  }

  /**
   * `getNonce($address)`: the account's transaction count including the
   * mempool (`"pending"`); fails when the node gives no `result`.
   */
  function GetNonce(rpc: Rpc, address: string): (r: Result<nat, Fault>)
    ensures ResultOf(rpc("eth_getTransactionCount", PendingCountCall(address))).None? ==> r == Failure(Runtime(NonceError))
    ensures r.Success? ==> ResultOf(rpc("eth_getTransactionCount", PendingCountCall(address))).Some?
  {
    match ResultOf(rpc("eth_getTransactionCount", PendingCountCall(address)))
    case None => Failure(Runtime(NonceError))
    case Some(JStr(count)) => Success(QuantityValue(count))
    case Some(_) => Failure(TypeFault(NotAStringError))
  }

  /** A node reporting a pending count of n, as a quantity, yields nonce n. */
  lemma NonceIsPendingCount(rpc: Rpc, address: string, n: nat)
    requires ResultOf(rpc("eth_getTransactionCount", PendingCountCall(address))) == Some(JStr(Quantity(n)))
    ensures GetNonce(rpc, address) == Success(n)
  {
    QuantityRoundTrip(n);
  }

  /**
   * `getGasPrice()`: the node's price unless it is below 2 gwei or missing,
   * in which case the floor. Whatever succeeds is at least the floor.
   */
  function GetGasPrice(rpc: Rpc): (r: Result<string, Fault>)
    ensures r.Success? ==> QuantityValue(r.value) >= MinGasPriceWei
    ensures ResultOf(rpc("eth_gasPrice", [])).None? ==> r == Success(MinGasPriceHex)
    ensures forall g | ResultOf(rpc("eth_gasPrice", [])) == Some(JStr(g)) ::
      r == Success(if QuantityValue(g) < MinGasPriceWei then MinGasPriceHex else g)
    ensures r.Failure? <==> ResultOf(rpc("eth_gasPrice", [])).Some? && !ResultOf(rpc("eth_gasPrice", [])).value.JStr?
  {
    QuantityRoundTrip(MinGasPriceWei);
    match ResultOf(rpc("eth_gasPrice", []))
    case None => Success(MinGasPriceHex)
    case Some(JStr(gasPrice)) =>
      if QuantityValue(gasPrice) < MinGasPriceWei then Success(MinGasPriceHex) else Success(gasPrice)
    case Some(_) => Failure(TypeFault(NotAStringError))
  }

  /**
   * `encodeContractCall($msgHash)`: no ABI encoding yet; with or without a
   * contract the call data is the message hash itself.
   */
  function EncodeContractCall(contractAddress: Option<string>, msgHash: string): (data: string)
    ensures data == msgHash
  {
    msgHash
  }

  function EstimateCall(from: string, contract: string, msgHash: string, gasPrice: string): seq<Json> {
    [JObj([("from", JStr(from)), ("to", JStr(contract)),
           ("data", JStr(EncodeContractCall(Some(contract), msgHash))), ("gasPrice", JStr(gasPrice))])]
  }

  /**
   * `estimateGas(...)`: the node's estimate plus a 20% margin, truncated;
   * 100000 when the node gives no estimate.
   */
  function EstimateGas(rpc: Rpc, from: string, contract: string, msgHash: string, gasPrice: string): (r: Result<string, Fault>)
    ensures ResultOf(rpc("eth_estimateGas", EstimateCall(from, contract, msgHash, gasPrice))).None? ==>
      r == Success(FallbackGas) && QuantityValue(r.value) == 100000
    ensures forall e | ResultOf(rpc("eth_estimateGas", EstimateCall(from, contract, msgHash, gasPrice))) == Some(JStr(e)) ::
      r.Success? && QuantityValue(r.value) == QuantityValue(e) + QuantityValue(e) / 5
  {
    match ResultOf(rpc("eth_estimateGas", EstimateCall(from, contract, msgHash, gasPrice)))
    case None => FallbackGasValue(); Success(FallbackGas)
    case Some(JStr(estimate)) =>
      var withMargin := QuantityValue(estimate) * 12 / 10;
      QuantityRoundTrip(withMargin);
      Success(Quantity(withMargin))
    case Some(_) => Failure(TypeFault(NotAStringError))
  }

  /** The margin never lowers an estimate and adds at most a fifth of it. */
  lemma MarginBounds(estimate: nat)
    ensures estimate <= estimate * 12 / 10 <= estimate + estimate / 5
  {
  }

  /**
   * `getChainId()`: the node's answer, or, when it gives none, the id of
   * the configured network (`BLOCKCHAIN_NETWORK`, Sepolia when unset):
   * Sepolia's for "sepolia", mainnet's for anything else.
   */
  function GetChainId(rpc: Rpc, network: Option<string>): (r: Result<string, Fault>)
    ensures ResultOf(rpc("eth_chainId", [])).None? ==>
      r == Success(if network.None? || network.value == "sepolia" then SepoliaChainId else MainnetChainId) &&
      QuantityValue(r.value) == if network.None? || network.value == "sepolia" then 11155111 else 1
    ensures forall c | ResultOf(rpc("eth_chainId", [])) == Some(JStr(c)) :: r == Success(c)
  {
    match ResultOf(rpc("eth_chainId", []))
    case Some(JStr(chainId)) => Success(chainId)
    case Some(_) => Failure(TypeFault("Return value must be of type string"))
    case None =>
      SepoliaChainIdValue(); MainnetChainIdValue();
      match network.GetOr("sepolia")
      case "sepolia" => Success(SepoliaChainId)
      case "mainnet" => Success(MainnetChainId)
      case _ => Success(MainnetChainId)
  }

  // ---------------------------------------------------------------------
  // Signing and broadcasting
  // ---------------------------------------------------------------------

  /** The `$transaction` array: every field a string. */
  datatype Transaction = Transaction(
    nonce: string, gasPrice: string, gas: string, to: string, value: string, data: string, chainId: string)

  /** The fields handed to the signing library, decoded from hex and without "0x" prefixes. */
  datatype UnsignedTx = UnsignedTx(nonce: nat, gasPrice: nat, gas: nat, to: string, value: nat, data: string)

  /**
   * The signing library: (transaction, key without "0x", chain id) to the
   * raw signed transaction in hex, or the message of the exception it throws.
   */
  type Signer = (UnsignedTx, string, nat) -> Result<string, string>

  /** The library's address derivation: key to address hex, or the message of the exception it throws. */
  type AddressDeriver = string -> Result<string, string>

  function Decode(tx: Transaction): UnsignedTx {
    UnsignedTx(QuantityValue(tx.nonce), QuantityValue(tx.gasPrice), QuantityValue(tx.gas),
               Strip0x(tx.to), QuantityValue(tx.value), Strip0x(tx.data))
  }

  /** `signTransaction($transaction)`; a library failure becomes "Failed to sign transaction: ...". */
  function SignTransaction(signer: Signer, privateKey: string, tx: Transaction): (r: Result<string, Fault>)
    ensures signer(Decode(tx), Strip0x(privateKey), QuantityValue(tx.chainId)).Success? ==>
      r == Success(signer(Decode(tx), Strip0x(privateKey), QuantityValue(tx.chainId)).value)
    ensures signer(Decode(tx), Strip0x(privateKey), QuantityValue(tx.chainId)).Failure? ==>
      r == Failure(Runtime("Failed to sign transaction: " + signer(Decode(tx), Strip0x(privateKey), QuantityValue(tx.chainId)).error))
  {
    match signer(Decode(tx), Strip0x(privateKey), QuantityValue(tx.chainId))
    case Success(raw) => Success(raw)
    case Failure(message) => Failure(Runtime("Failed to sign transaction: " + message))
  }

  /** How PHP interpolates a decoded JSON value into a string. */
  function Interpolate(j: Json): string {
    match j
    case JStr(s) => s
    case JInt(i) => IntToDecimal(i)
    case JBool(b) => if b then "1" else ""
    case JNull => ""
    case JArr(_) => "Array"
    case JObj(_) => "Array"
  }

  /** `$response['error']['message'] ?? 'Unknown error'` */
  function ErrorText(response: Option<Json>): string {
    match At(At(response, "error"), "message")
    case Some(message) => Interpolate(message)
    case None => "Unknown error"
  }

  /**
   * `sendRawTransaction($signedTx)`: broadcasts "0x" + the signed hex and
   * returns the node's transaction hash; without one, fails with the node's
   * error message.
   */
  function SendRawTransaction(rpc: Rpc, signedTx: string): (r: Result<string, Fault>)
    ensures var response := rpc("eth_sendRawTransaction", [JStr("0x" + signedTx)]);
      && (ResultOf(response).None? ==> r == Failure(Runtime("Failed to send transaction: " + ErrorText(response))))
      && (r.Success? ==> ResultOf(response) == Some(JStr(r.value)))
  {
    var response := rpc("eth_sendRawTransaction", [JStr("0x" + signedTx)]);
    match ResultOf(response)
    case None => Failure(Runtime("Failed to send transaction: " + ErrorText(response)))
    case Some(JStr(txHash)) => Success(txHash)
    case Some(_) => Failure(TypeFault("Return value must be of type string"))
  }

  /** A node's error message is passed on; with no response at all it reads "Unknown error". */
  lemma NodeErrorMessage(rpc: Rpc, signedTx: string, code: int, message: string)
    ensures rpc("eth_sendRawTransaction", [JStr("0x" + signedTx)]) ==
        Some(JObj([("jsonrpc", JStr("2.0")), ("id", JInt(1)), ("error", JObj([("code", JInt(code)), ("message", JStr(message))]))]))
      ==> SendRawTransaction(rpc, signedTx) == Failure(Runtime("Failed to send transaction: " + message))
    ensures rpc("eth_sendRawTransaction", [JStr("0x" + signedTx)]) == None
      ==> SendRawTransaction(rpc, signedTx) == Failure(Runtime("Failed to send transaction: " + "Unknown error"))
  {
  }

  // ---------------------------------------------------------------------
  // The client
  // ---------------------------------------------------------------------

  class ServerSignBlockchainClient {
    const privateKey: string
    const contractAddress: Option<string>
    /** `$_ENV['BLOCKCHAIN_NETWORK']`, read by the chain id fallback. */
    const network: Option<string>
    const fromAddress: string
    const signer: Signer

    constructor (privateKey: string, contractAddress: Option<string>, network: Option<string>,
                 fromAddress: string, signer: Signer)
      ensures this.privateKey == privateKey && this.contractAddress == contractAddress
      ensures this.network == network && this.fromAddress == fromAddress && this.signer == signer
    {
      this.privateKey := privateKey;
      this.contractAddress := contractAddress;
      this.network := network;
      this.fromAddress := fromAddress;
      this.signer := signer;
    }

    /** The gas limit of step 3: estimated for a (truthy) contract, 21000 otherwise. */
    function GasLimit(rpc: Rpc, msgHash: string, gasPrice: string): Result<string, Fault> {
      if Truthy(contractAddress) then EstimateGas(rpc, fromAddress, contractAddress.value, msgHash, gasPrice)
      else Success(SimpleTransferGas)
    }

    /** Steps 1 to 4 of `registerMessage`: the transaction to sign, or the first step's failure. */
    function BuildTransaction(msgHash: string, rpc: Rpc): Result<Transaction, Fault> {
      match GetNonce(rpc, fromAddress)
      case Failure(e) => Failure(e)
      case Success(nonce) =>
        match GetGasPrice(rpc)
        case Failure(e) => Failure(e)
        case Success(gasPrice) =>
          match GasLimit(rpc, msgHash, gasPrice)
          case Failure(e) => Failure(e)
          case Success(gas) =>
            match GetChainId(rpc, network)
            case Failure(e) => Failure(e)
            case Success(chainId) =>
              Success(Transaction(
                Quantity(nonce), gasPrice, gas, contractAddress.GetOr(fromAddress), "0x0",
                if Truthy(contractAddress) then EncodeContractCall(contractAddress, msgHash) else msgHash,
                chainId))
    }

    /** The whole submission: build, sign, broadcast; the first failure is rethrown unchanged. */
    function Submission(msgHash: string, rpc: Rpc): Result<string, Fault> {
      match BuildTransaction(msgHash, rpc)
      case Failure(e) => Failure(e)
      case Success(tx) =>
        match SignTransaction(signer, privateKey, tx)
        case Failure(e) => Failure(e)
        case Success(signedTx) => SendRawTransaction(rpc, signedTx)
    }

    /** `registerMessage($msgHash)`: the six steps in order, stopping at the first that throws. */
    method RegisterMessage(msgHash: string, rpc: Rpc) returns (r: Result<string, Fault>)
      ensures r == Submission(msgHash, rpc)
      ensures r.Success? ==> BuildTransaction(msgHash, rpc).Success?
    {
      var nonce := GetNonce(rpc, fromAddress);
      if nonce.Failure? {
        return Failure(nonce.error);
      }
      var gasPrice := GetGasPrice(rpc);
      if gasPrice.Failure? {
        return Failure(gasPrice.error);
      }
      var gasLimit := GasLimit(rpc, msgHash, gasPrice.value);
      if gasLimit.Failure? {
        return Failure(gasLimit.error);
      }
      var data := if Truthy(contractAddress) then EncodeContractCall(contractAddress, msgHash) else msgHash;
      var chainId := GetChainId(rpc, network);
      if chainId.Failure? {
        return Failure(chainId.error);
      }
      var transaction := Transaction(
        Quantity(nonce.value), gasPrice.value, gasLimit.value, contractAddress.GetOr(fromAddress), "0x0",
        data, chainId.value);
      var signedTx := SignTransaction(signer, privateKey, transaction);
      if signedTx.Failure? {
        return Failure(signedTx.error);
      }
      r := SendRawTransaction(rpc, signedTx.value);
    }

    /** `getReceipt`: delegated to a read-only client with the same contract address. */
    function GetReceipt(rpc: Rpc, txHash: string): (r: Option<Receipt>)
      ensures r == RpcBlockchainClient(contractAddress).GetReceipt(rpc, txHash)
    {
      RpcBlockchainClient(contractAddress).GetReceipt(rpc, txHash)
    }

    /** `isConfirmed`: delegated to a read-only client with the same contract address. */
    function IsConfirmed(rpc: Rpc, txHash: string): (confirmed: bool)
      ensures confirmed == RpcBlockchainClient(contractAddress).IsConfirmed(rpc, txHash)
    {
      RpcBlockchainClient(contractAddress).IsConfirmed(rpc, txHash)
    }
  }

  /**
   * The constructor: rejects a malformed key before deriving anything, then
   * derives the sender address ("0x" + the library's hex); a derivation
   * failure is wrapped twice, as the two catch blocks do.
   */
  method Create(privateKey: string, contractAddress: Option<string>, network: Option<string>,
                derive: AddressDeriver, signer: Signer)
    returns (r: Result<ServerSignBlockchainClient, Fault>)
    ensures !ValidPrivateKey(privateKey) ==> r == Failure(InvalidArgument(InvalidKeyMessage))
    ensures ValidPrivateKey(privateKey) && derive(Strip0x(privateKey)).Failure? ==>
      r == Failure(Runtime("Failed to initialize blockchain client: "
                           + ("Failed to derive address: " + derive(Strip0x(privateKey)).error)))
    ensures r.Success? <==> ValidPrivateKey(privateKey) && derive(Strip0x(privateKey)).Success?
    ensures r.Success? ==>
      && fresh(r.value)
      && r.value.fromAddress == "0x" + derive(Strip0x(privateKey)).value
      && r.value.privateKey == privateKey && r.value.contractAddress == contractAddress
      && r.value.network == network && r.value.signer == signer
  {
    var cleanKey := Strip0x(privateKey);
    if !(ByteLength(cleanKey) == 64 && IsXDigitString(cleanKey)) {
      return Failure(InvalidArgument(InvalidKeyMessage));
    }
    var derived := derive(cleanKey);
    if derived.Failure? {
      var inner := Runtime("Failed to derive address: " + derived.error);
      return Failure(Runtime("Failed to initialize blockchain client: " + inner.message));
    }
    var client := new ServerSignBlockchainClient(privateKey, contractAddress, network, "0x" + derived.value, signer);
    return Success(client);
  }

  // ---------------------------------------------------------------------
  // Properties of a submission
  // ---------------------------------------------------------------------

  /**
   * The transaction that gets signed: nonce = the pending count, gas price
   * at least 2 gwei, gas limit 21000 without a contract (else the estimate),
   * recipient = the contract or, when none is configured, the sender itself,
   * zero value, and the message hash as data.
   */
  lemma SignedTransactionFields(client: ServerSignBlockchainClient, msgHash: string, rpc: Rpc)
    requires client.BuildTransaction(msgHash, rpc).Success?
    ensures var tx := client.BuildTransaction(msgHash, rpc).value;
      && GetNonce(rpc, client.fromAddress).Success?
      && Decode(tx).nonce == GetNonce(rpc, client.fromAddress).value
      && Decode(tx).gasPrice >= MinGasPriceWei
      && (!Truthy(client.contractAddress) ==> Decode(tx).gas == 21000)
      && tx.to == (if client.contractAddress.Some? then client.contractAddress.value else client.fromAddress)
      && Decode(tx).value == 0
      && tx.data == msgHash
  {
    var tx := client.BuildTransaction(msgHash, rpc).value;
    QuantityRoundTrip(GetNonce(rpc, client.fromAddress).value);
    SimpleTransferGasValue();
    assert Drop("0x0", 2) == "0";
    assert HexDec("0") == 0 by { HexDecSnoc("", '0'); assert "" + ['0'] == "0"; }
  }

  /**
   * A contract address configured as "" is not truthy, so gas and data are
   * those of a plain transfer, but `??` keeps it as the recipient: the
   * transaction goes to the empty address, not back to the sender.
   */
  lemma EmptyContractAddressIsRecipient(client: ServerSignBlockchainClient, msgHash: string, rpc: Rpc)
    requires client.contractAddress == Some("")
    requires client.BuildTransaction(msgHash, rpc).Success?
    ensures client.BuildTransaction(msgHash, rpc).value.to == ""
    ensures client.BuildTransaction(msgHash, rpc).value.gas == SimpleTransferGas
  {
  }

  /** Without a nonce nothing is signed or sent: the submission fails with "Failed to get nonce". */
  lemma NoNonceNoSubmission(client: ServerSignBlockchainClient, msgHash: string, rpc: Rpc)
    requires ResultOf(rpc("eth_getTransactionCount", PendingCountCall(client.fromAddress))).None?
    ensures client.Submission(msgHash, rpc) == Failure(Runtime(NonceError))
  {
  }
}
