/**
 * The `BlockchainClient` interface: one of the three ledger clients, chosen
 * by configuration, behind `registerMessage`, `getReceipt` and
 * `isConfirmed`. Everything a call reads from outside the process (the
 * clock, `date('c')`, the random draws, the node) comes in an `Env`.
 */
module Ledger {
  import opened Wrappers
  import opened Faults
  import opened Json
  import opened Blockchain
  import opened PhpStrings
  import MockClient
  import opened RpcClient
  import opened ServerSignClient

  /** The interface's implementations. */
  datatype LedgerClient =
    | Mock(mock: MockClient.MockBlockchainClient)
    | ReadOnly(reader: RpcBlockchainClient)
    | Signing(signing: ServerSignBlockchainClient)

  /**
   * What one request sees of the outside world: `time()`, `date('c')`, the
   * draws of `rand(1000000, 9999999)`, `random_bytes(32)` and `rand(5, 10)`,
   * and the JSON-RPC node.
   */
  datatype Env = Env(
    now: int,
    date: string,
    block: MockClient.BlockDraw,
    txBytes: MockClient.Bytes32,
    delay: MockClient.DelayDraw,
    rpc: Rpc)

  /** The objects a ledger call may change: only the mock keeps state. */
  function Footprint(c: LedgerClient): set<object> {
    if c.Mock? then {c.mock} else {}
  }

  ghost predicate Valid(c: LedgerClient)
    reads Footprint(c)
  {
    c.Mock? ==> c.mock.Valid()
  }

  /** What `registerMessage` returns: a transaction hash, or the exception it throws. */
  function Submitted(c: LedgerClient, msgHash: string, env: Env): Result<string, Fault> {
    match c
    case Mock(_) => Success("0x" + Bin2Hex(env.txBytes))
    case ReadOnly(reader) => reader.RegisterMessage(msgHash)
    case Signing(signing) => signing.Submission(msgHash, env.rpc)
  }

  /** What `getReceipt` returns in the client's current state. */
  function ReceiptNow(c: LedgerClient, txHash: string, env: Env): Option<Receipt>
    reads Footprint(c)
  {
    match c
    case Mock(m) =>
      Some(MockClient.ReceiptOf(txHash, MockClient.SettledRecord(m.State(), txHash, env.now, env.date, env.block)))
    case ReadOnly(reader) => reader.GetReceipt(env.rpc, txHash)
    case Signing(signing) => signing.GetReceipt(env.rpc, txHash)
  }

  /**
   * What `getReceipt` answers when the mock's tables are `s`; the RPC
   * clients keep no tables and ignore `s`.
   */
  function ReceiptIn(c: LedgerClient, s: MockClient.MockState, txHash: string, env: Env): Option<Receipt> {
    match c
    case Mock(_) => Some(MockClient.ReceiptOf(txHash, MockClient.SettledRecord(s, txHash, env.now, env.date, env.block)))
    case ReadOnly(reader) => reader.GetReceipt(env.rpc, txHash)
    case Signing(signing) => signing.GetReceipt(env.rpc, txHash)
  }

  /** What `isConfirmed` returns in the client's current state. */
  function ConfirmedNow(c: LedgerClient, txHash: string, env: Env): bool
    reads Footprint(c)
  {
    match c
    case Mock(m) =>
      MockClient.SettledRecord(m.State(), txHash, env.now, env.date, env.block).status == MockClient.TxConfirmed
    case ReadOnly(reader) => reader.IsConfirmed(env.rpc, txHash)
    case Signing(signing) => signing.IsConfirmed(env.rpc, txHash)
  }

  /**
   * For every client, confirmed means a receipt reporting success exists
   * (the RPC clients may further demand a contract log).
   */
  lemma ConfirmedHasSuccessfulReceipt(c: LedgerClient, txHash: string, env: Env)
    ensures ConfirmedNow(c, txHash, env) ==> ReceiptNow(c, txHash, env).Some? && Succeeded(ReceiptNow(c, txHash, env).value)
    ensures c.Mock? ==> (ConfirmedNow(c, txHash, env) <==> Succeeded(ReceiptNow(c, txHash, env).value))
  {
  }

  /** `$client->registerMessage($msgHash)` */
  method RegisterMessage(c: LedgerClient, msgHash: string, env: Env) returns (r: Result<string, Fault>)
    requires Valid(c)
    modifies Footprint(c)
    ensures Valid(c)
    ensures r == Submitted(c, msgHash, env)
    ensures c.Mock? ==> c.mock.State() == MockClient.Registered(old(c.mock.State()), msgHash, env.now, env.txBytes, env.delay)
  {
    match c
    case Mock(m) =>
      var txHash := m.RegisterMessage(msgHash, env.now, env.txBytes, env.delay);
      r := Success(txHash);
    case ReadOnly(reader) =>
      r := reader.RegisterMessage(msgHash);
    case Signing(signing) =>
      r := signing.RegisterMessage(msgHash, env.rpc);
  }

  /** `$client->getReceipt($txHash)`: the mock settles the hash first. */
  method GetReceipt(c: LedgerClient, txHash: string, env: Env) returns (r: Option<Receipt>)
    requires Valid(c)
    modifies Footprint(c)
    ensures Valid(c)
    ensures r == old(ReceiptNow(c, txHash, env))
    ensures c.Mock? ==> c.mock.State() == MockClient.Settle(old(c.mock.State()), txHash, env.now, env.date, env.block)
  {
    match c
    case Mock(m) =>
      var receipt := m.GetReceipt(txHash, env.now, env.date, env.block);
      r := Some(receipt);
    case ReadOnly(reader) =>
      r := reader.GetReceipt(env.rpc, txHash);
    case Signing(signing) =>
      r := signing.GetReceipt(env.rpc, txHash);
  }

  /** `$client->isConfirmed($txHash)`: the mock settles the hash first. */
  method IsConfirmed(c: LedgerClient, txHash: string, env: Env) returns (confirmed: bool)
    requires Valid(c)
    modifies Footprint(c)
    ensures Valid(c)
    ensures confirmed == old(ConfirmedNow(c, txHash, env))
    ensures c.Mock? ==> c.mock.State() == MockClient.Settle(old(c.mock.State()), txHash, env.now, env.date, env.block)
  {
    match c
    case Mock(m) =>
      confirmed := m.IsConfirmed(txHash, env.now, env.date, env.block);
    case ReadOnly(reader) =>
      confirmed := reader.IsConfirmed(env.rpc, txHash);
    case Signing(signing) =>
      confirmed := signing.IsConfirmed(env.rpc, txHash);
  }

  /**
   * Asking again within the same request gives the same answers: once the
   * mock has settled a hash at this time, settling it again changes nothing.
   */
  lemma AnswersStableAfterSettling(s: MockClient.MockState, txHash: string, env: Env)
    requires MockClient.Consistent(s)
    ensures var s1 := MockClient.Settle(s, txHash, env.now, env.date, env.block);
      && MockClient.SettledRecord(s1, txHash, env.now, env.date, env.block)
           == MockClient.SettledRecord(s, txHash, env.now, env.date, env.block)
      && MockClient.Settle(s1, txHash, env.now, env.date, env.block) == s1
  {
    MockClient.SettleIdempotent(s, txHash, env.now, env.date, env.block, env.block);
  }
}
