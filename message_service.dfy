/**
 * The message service: validates and hashes a text, submits the hash to
 * the configured ledger according to BLOCKCHAIN_MODE, stores the message,
 * and later reconciles a stored status with the ledger's receipt.
 */
module Service {
  import opened Wrappers
  import opened Faults
  import opened Json
  import opened Blockchain
  import opened PhpStrings
  import opened Domain
  import opened Persistence
  import opened Ledger
  import MockClient

  const LengthError: string := "Message must be between 1 and 280 characters"
  const RpcOnlyCreateError: string :=
    "RPC-only mode does not support writing transactions. Use mock mode for testing or server_sign mode for production."
  const NoTxError: string := "No transaction hash"
  const MaxMessageBytes: nat := 280

  // ---------------------------------------------------------------------
  // Validation and hashing
  // ---------------------------------------------------------------------

  /** `strlen($message) >= 1 && strlen($message) <= 280`, on the trimmed text: bytes, not characters. */
  predicate LengthOk(trimmed: string) {
    1 <= ByteLength(trimmed) <= MaxMessageBytes
  }

  /** Text whose characters all take two bytes in UTF-8 is twice as long in bytes. */
  lemma {:induction false} TwoByteText(s: string)
    requires forall i | 0 <= i < |s| :: Utf8Width(s[i]) == 2
    ensures ByteLength(s) == 2 * |s|
  {
    if s != [] {
      TwoByteText(s[1..]);
    }
  }

  /** Text that starts and ends with a non-blank character is left alone by `trim`. */
  lemma TrimKeepsUnpadded(s: string)
    requires s != [] && !IsTrimChar(s[0]) && !IsTrimChar(s[|s| - 1])
    ensures Trim(s) == s
  {
    assert TrimLeft(s) == s;
  }

  /**
   * The limit is on bytes: 141 copies of 'é' are 141 characters, well under
   * 280, yet 282 bytes, and are rejected.
   */
  lemma LimitCountsBytes(s: string)
    requires |s| == 141 && forall i | 0 <= i < |s| :: s[i] == 'é'
    ensures |s| <= MaxMessageBytes && Trim(s) == s && !LengthOk(Trim(s))
  {
    TrimKeepsUnpadded(s);
    TwoByteText(s);
  }

  /** 280 ASCII characters are exactly at the limit and accepted. */
  lemma AsciiLimitAccepted(s: string)
    requires |s| == 280 && forall i | 0 <= i < |s| :: s[i] == 'a'
    ensures Trim(s) == s && LengthOk(Trim(s))
  {
    TrimKeepsUnpadded(s);
    assert IsAscii(s);
    AsciiByteLength(s);
  }

  // ---------------------------------------------------------------------
  // generateUuid()
  // ---------------------------------------------------------------------

  /** A draw of `random_bytes(16)`. */
  type Bytes16 = s: seq<Byte> | |s| == 16 witness seq(16, _ => 0)

  /**
   * Byte 6 gets version 4 in its high nibble (`& 0x0f | 0x40`), byte 8 the
   * variant bits 10 (`& 0x3f | 0x80`). On byte values, masking off the high
   * bits is a remainder and or-ing in bits the remainder cannot have is an
   * addition; VersionBits and VariantBits show the two agree.
   */
  function UuidBytes(data: Bytes16): seq<Byte> {
    data[6 := data[6] % 16 + 0x40][8 := data[8] % 64 + 0x80]
  }

  /** `generateUuid()`: the bytes in hex, grouped 8-4-4-4-12. */
  function GenerateUuid(data: Bytes16): string {
    var h := Bin2Hex(UuidBytes(data));
    h[..8] + "-" + h[8..12] + "-" + h[12..16] + "-" + h[16..20] + "-" + h[20..32]
  }

  predicate IsDashPosition(i: int) {
    i == 8 || i == 13 || i == 18 || i == 23
  }

  /**
   * A generated id is a version-4 UUID in the layout of section 4 of
   * RFC 9562: 36 characters, dashes at 8, 13, 18 and 23, lower-case hex
   * digits elsewhere, version digit '4' (section 5.4) and variant digit
   * 8, 9, a or b (section 4.1).
   */
  lemma UuidFormat(data: Bytes16)
    ensures var u := GenerateUuid(data);
      && |u| == 36
      && (forall i | 0 <= i < 36 :: if IsDashPosition(i) then u[i] == '-' else IsLowerHexDigit(u[i]))
      && u[14] == '4'
      && (u[19] == '8' || u[19] == '9' || u[19] == 'a' || u[19] == 'b')
  {
    var bs := UuidBytes(data);
    var h := Bin2Hex(bs);
    var u := GenerateUuid(data);
    Bin2HexIsLowerHex(bs);
    forall i | 0 <= i < 36
      ensures if IsDashPosition(i) then u[i] == '-' else IsLowerHexDigit(u[i])
    {
      if i < 8 { assert u[i] == h[i]; }
      else if 8 < i < 13 { assert u[i] == h[i - 1]; }
      else if 13 < i < 18 { assert u[i] == h[i - 2]; }
      else if 18 < i < 23 { assert u[i] == h[i - 3]; }
      else if 23 < i { assert u[i] == h[i - 4]; }
    }
    assert u[14] == h[12] && u[19] == h[16];
    Bin2HexReadsBack(bs, 6);
    Bin2HexReadsBack(bs, 8);
  }

  /** `ord($b) & 0x0f | 0x40` is the arithmetic of UuidBytes for byte 6. */
  lemma VersionBits(b: bv8)
    ensures ((b & 0x0F) | 0x40) as int == b as int % 16 + 0x40
  {
  }

  /** `ord($b) & 0x3f | 0x80` is the arithmetic of UuidBytes for byte 8. */
  lemma VariantBits(b: bv8)
    ensures ((b & 0x3F) | 0x80) as int == b as int % 64 + 0x80
  {
  }

  // ---------------------------------------------------------------------
  // Reconciliation: updateMessageStatus()
  // ---------------------------------------------------------------------

  /** `$receipt['status'] === '0x1' ? 'confirmed' : 'failed'` */
  function StatusFor(receipt: Receipt): (status: string)
    ensures status == Confirmed || status == Failed
    ensures status == Confirmed <==> Succeeded(receipt)
  {
    if Succeeded(receipt) then Confirmed else Failed
  }

  /**
   * The block number stored on confirmation: hex-decoded after the first two
   * characters when the receipt gives a string, taken as it is when it gives
   * an integer, none when the key is absent or null.
   */
  function BlockNumberOf(blockNumber: Json): Option<int> {
    match blockNumber
    case JStr(s) => Some(HexDec(Drop(s, 2)))
    case JInt(n) => Some(n)
    case _ => None
  }

  /**
   * `updateMessageStatus($message)` as a value: with a transaction hash and
   * a receipt, the status the receipt implies; on a change to confirmed,
   * also the confirmation time and the block number (when the receipt has
   * one); on a change to failed, the status only.
   */
  function Reconciled(m: Message, receipt: Option<Receipt>, date: string): Message {
    if !Truthy(m.txHash) || receipt.None? then m
    else
      var status := StatusFor(receipt.value);
      if status == m.status then m
      else if status == Confirmed then
        var block := BlockNumberOf(receipt.value.blockNumber);
        m.(status := status, confirmedAt := Some(date), blockNumber := if block.Some? then block else m.blockNumber)
      else m.(status := status)
  }

  /**
   * What reconciliation may do: keep the readonly fields; either change
   * nothing or move to the receipt's status (never back to pending); set
   * confirmedAt exactly when entering confirmed; touch nothing else on
   * entering failed.
   */
  lemma ReconcileOutcome(m: Message, receipt: Option<Receipt>, date: string)
    ensures var r := Reconciled(m, receipt, date);
      && SameIdentity(r, m) && r.txHash == m.txHash
      && (r == m || (receipt.Some? && Truthy(m.txHash) && r.status == StatusFor(receipt.value) != m.status))
      && (r.status != m.status ==> r.status != Pending)
      && (r.status == m.status ==> r == m)
      && (r != m && r.status == Confirmed ==> r.confirmedAt == Some(date))
      && (r != m && r.status == Failed ==> r.confirmedAt == m.confirmedAt && r.blockNumber == m.blockNumber)
  {
  }

  /** Reconciling again with the same receipt changes nothing: a repeat writes nothing. */
  lemma ReconcileIdempotent(m: Message, receipt: Option<Receipt>, date: string, date2: string)
    ensures Reconciled(Reconciled(m, receipt, date), receipt, date2) == Reconciled(m, receipt, date)
  {
  }

  /** A receipt's hex block number is stored as the number it encodes. */
  lemma ConfirmedBlockNumber(m: Message, receipt: Receipt, date: string, n: nat)
    requires Truthy(m.txHash) && m.status != Confirmed && Succeeded(receipt)
    requires receipt.blockNumber == JStr("0x" + DecHex(n))
    ensures Reconciled(m, Some(receipt), date).blockNumber == Some(n)
    ensures Reconciled(m, Some(receipt), date).status == Confirmed
  {
    assert Drop("0x" + DecHex(n), 2) == DecHex(n);
    HexDecOfDecHex(n);
  }

  /**
   * With the mock ledger, reconciling a message before its transaction's
   * deadline marks it failed: the mock answers a still-pending transaction
   * with a "0x0" receipt rather than none.
   */
  lemma MockEarlyReconcileFails(s: MockClient.MockState, m: Message, env: Env)
    requires MockClient.Consistent(s)
    requires m.status == Pending && Truthy(m.txHash)
    requires m.txHash.value in s.pendingConfirmations && env.now < s.pendingConfirmations[m.txHash.value]
    ensures var rec := MockClient.SettledRecord(s, m.txHash.value, env.now, env.date, env.block);
      Reconciled(m, Some(MockClient.ReceiptOf(m.txHash.value, rec)), env.date).status == Failed
  {
    MockClient.ConfirmsAtDeadline(s, m.txHash.value, env.now, env.date, env.block);
  }

  /**
   * With the mock ledger, reconciling at or after the deadline confirms the
   * message with the draw's block number and the current time.
   */
  lemma MockReconcileAfterDeadline(s: MockClient.MockState, m: Message, env: Env)
    requires MockClient.Consistent(s)
    requires m.status == Pending && Truthy(m.txHash)
    requires m.txHash.value in s.pendingConfirmations && env.now >= s.pendingConfirmations[m.txHash.value]
    ensures var rec := MockClient.SettledRecord(s, m.txHash.value, env.now, env.date, env.block);
      var r := Reconciled(m, Some(MockClient.ReceiptOf(m.txHash.value, rec)), env.date);
      r.status == Confirmed && r.blockNumber == Some(env.block as int) && r.confirmedAt == Some(env.date)
  {
    MockClient.ConfirmsAtDeadline(s, m.txHash.value, env.now, env.date, env.block);
  }

  // ---------------------------------------------------------------------
  // verifyMessage() results
  // ---------------------------------------------------------------------

  /** The array `verifyMessage` returns; an absent optional key is None. */
  datatype Verification = Verification(
    valid: bool,
    status: string,
    txHash: Option<string>,
    network: string,
    error: Option<string> := None,
    contractAddress: Option<string> := None,
    blockNumber: Option<Json> := None,
    msgHashMatches: Option<bool> := None)

  /** `is_string($b) ? hexdec(substr($b, 2)) : $b` for a block number that is set. */
  function ReportedBlock(blockNumber: Json): Option<Json> {
    match blockNumber
    case JNull => None
    case JStr(s) => Some(JInt(HexDec(Drop(s, 2))))
    case _ => Some(blockNumber)
  }

  // ---------------------------------------------------------------------
  // processPendingMessages() step by step
  // ---------------------------------------------------------------------

  /**
   * The mock's tables after the first `n` messages of `pending` were
   * reconciled, message k with `envs(k)`: with the mock, each one with a
   * truthy transaction hash settles that hash; the RPC clients keep no tables.
   */
  function TablesAfter(c: LedgerClient, s: MockClient.MockState, pending: seq<Message>, envs: nat -> Env, n: nat): MockClient.MockState
    requires n <= |pending|
  {
    if n == 0 then s
    else
      var t := TablesAfter(c, s, pending, envs, n - 1);
      var m := pending[n - 1];
      if c.Mock? && Truthy(m.txHash) then MockClient.Settle(t, m.txHash.value, envs(n - 1).now, envs(n - 1).date, envs(n - 1).block)
      else t
  }

  /** The receipt message k of `pending` is reconciled with: none without a truthy hash. */
  function ReceiptAtStep(c: LedgerClient, s: MockClient.MockState, pending: seq<Message>, envs: nat -> Env, k: nat): Option<Receipt>
    requires k < |pending|
  {
    var m := pending[k];
    if Truthy(m.txHash) then ReceiptIn(c, TablesAfter(c, s, pending, envs, k), m.txHash.value, envs(k)) else None
  }

  /**
   * The table after the first `n` messages of `pending` were reconciled,
   * each written back under its own id.
   */
  function ReconciledRows(rows: map<string, Message>, pending: seq<Message>, c: LedgerClient,
                          s: MockClient.MockState, envs: nat -> Env, n: nat): map<string, Message>
    requires n <= |pending|
  {
    if n == 0 then rows
    else
      var m := pending[n - 1];
      ReconciledRows(rows, pending, c, s, envs, n - 1)[m.id := Reconciled(m, ReceiptAtStep(c, s, pending, envs, n - 1), envs(n - 1).date)]
  }

  /** A row none of the first `n` messages names is as it was. */
  lemma {:induction false} ReconciledRowsUntouched(rows: map<string, Message>, pending: seq<Message>, c: LedgerClient,
                                                   s: MockClient.MockState, envs: nat -> Env, n: nat, id: string)
    requires n <= |pending|
    requires forall k | 0 <= k < n :: pending[k].id != id
    ensures id in ReconciledRows(rows, pending, c, s, envs, n) <==> id in rows
    ensures id in rows ==> ReconciledRows(rows, pending, c, s, envs, n)[id] == rows[id]
  {
    if n > 0 {
      ReconciledRowsUntouched(rows, pending, c, s, envs, n - 1, id);
    }
  }

  /** With distinct ids, message k's row is its reconciled form once step k is done. */
  lemma {:induction false} ReconciledRowsDone(rows: map<string, Message>, pending: seq<Message>, c: LedgerClient,
                                              s: MockClient.MockState, envs: nat -> Env, n: nat, k: nat)
    requires n <= |pending| && k < n && DistinctIds(pending)
    ensures pending[k].id in ReconciledRows(rows, pending, c, s, envs, n)
    ensures ReconciledRows(rows, pending, c, s, envs, n)[pending[k].id]
      == Reconciled(pending[k], ReceiptAtStep(c, s, pending, envs, k), envs(k).date)
  {
    if k < n - 1 {
      ReconciledRowsDone(rows, pending, c, s, envs, n - 1, k);
      assert pending[n - 1].id != pending[k].id;
    }
  }

  /**
   * Once every message of `pending` (rows awaiting a receipt, distinct ids)
   * was reconciled, each of their rows is its reconciled form and every row
   * that was not awaiting a receipt is as it was.
   */
  lemma ReconciledRowsOutcome(rows: map<string, Message>, pending: seq<Message>, c: LedgerClient,
                              s: MockClient.MockState, envs: nat -> Env)
    requires DistinctIds(pending)
    requires forall k | 0 <= k < |pending| ::
      pending[k].id in rows && rows[pending[k].id] == pending[k] && AwaitingReceipt(pending[k])
    ensures var after := ReconciledRows(rows, pending, c, s, envs, |pending|);
      forall k | 0 <= k < |pending| ::
        pending[k].id in after && after[pending[k].id] == Reconciled(pending[k], ReceiptAtStep(c, s, pending, envs, k), envs(k).date)
    ensures var after := ReconciledRows(rows, pending, c, s, envs, |pending|);
      forall id | id in rows && !AwaitingReceipt(rows[id]) :: id in after && after[id] == rows[id]
  {
    forall k | 0 <= k < |pending| {
      ReconciledRowsDone(rows, pending, c, s, envs, |pending|, k);
    }
    forall id | id in rows && !AwaitingReceipt(rows[id]) {
      ReconciledRowsUntouched(rows, pending, c, s, envs, |pending|, id);
    }
  }

  // ---------------------------------------------------------------------
  // The service
  // ---------------------------------------------------------------------

  class MessageService {
    const repository: MessageRepository
    const ledger: LedgerClient
    /** `$_ENV['BLOCKCHAIN_MODE'] ?? 'mock'` */
    const mode: string
    /** `$_ENV['BLOCKCHAIN_NETWORK']` */
    const network: Option<string>
    /** `$_ENV['BLOCKCHAIN_CONTRACT_ADDRESS']` */
    const contractAddress: Option<string>
    /** `\kornrunner\Keccak::hash($text, 256)`: 64 hex digits. */
    const keccak: string -> string

    constructor (repository: MessageRepository, ledger: LedgerClient, mode: string,
                 network: Option<string>, contractAddress: Option<string>, keccak: string -> string)
      ensures this.repository == repository && this.ledger == ledger && this.mode == mode
      ensures this.network == network && this.contractAddress == contractAddress && this.keccak == keccak
    {
      this.repository := repository;
      this.ledger := ledger;
      this.mode := mode;
      this.network := network;
      this.contractAddress := contractAddress;
      this.keccak := keccak;
    }

    ghost predicate Valid()
      reads this, repository, Footprint(ledger)
    {
      repository.Valid() && Ledger.Valid(ledger)
    }

    /** The mock's tables; empty tables stand in for the RPC clients, which keep none. */
    function Tables(): MockClient.MockState
      reads Footprint(ledger)
    {
      if ledger.Mock? then ledger.mock.State() else MockClient.MockState(map[], map[])
    }

    /** `'0x' . Keccak::hash(trim($text), 256)` */
    function MessageHash(text: string): string {
      "0x" + keccak(Trim(text))
    }

    /** Whether `createMessage` submits in this mode. */
    predicate Submits() {
      mode == "mock" || mode == "server_sign"
    }

    /** The message object `createMessage` builds from a valid text, before any submission. */
    function Drafted(text: string, id: string, date: string): Message {
      Message(id, Trim(text), MessageHash(text), status := Pending, createdAt := date)
    }

    /**
     * The mode's handling of the ledger's answer: a hash is attached; an
     * exception is rethrown in server_sign mode and swallowed in mock mode,
     * which keeps the message without a hash; a type error always escapes.
     */
    function AfterSubmission(m: Message, submitted: Result<string, Fault>): Result<Message, Fault> {
      match submitted
      case Success(txHash) => Success(m.(txHash := Some(txHash)))
      case Failure(e) => if mode == "server_sign" || !e.IsException() then Failure(e) else Success(m)
    }

    /**
     * The message `createMessage` goes on to store, or the exception it
     * throws before storing anything.
     */
    function Prepared(text: string, id: string, env: Env): Result<Message, Fault> {
      if !LengthOk(Trim(text)) then Failure(InvalidArgument(LengthError))
      else if Submits() then AfterSubmission(Drafted(text, id, env.date), Submitted(ledger, MessageHash(text), env))
      else if mode == "rpc_only" then Failure(Runtime(RpcOnlyCreateError))
      else Success(Drafted(text, id, env.date))
    }

    /** Whatever the mode, a message that gets stored is pending, holds the trimmed text and its hash, and nothing more. */
    lemma PreparedIsPending(text: string, id: string, env: Env)
      ensures var p := Prepared(text, id, env);
        p.Success? ==>
          && LengthOk(Trim(text))
          && p.value.status == Pending && p.value.msgHash == MessageHash(text) && p.value.message == Trim(text)
          && p.value.id == id && p.value.createdAt == env.date
          && p.value.confirmedAt.None? && p.value.blockNumber.None?
    {
      if LengthOk(Trim(text)) && Submits() {
        SubmissionKeepsDraft(Drafted(text, id, env.date), Submitted(ledger, MessageHash(text), env));
      }
    }

    lemma SubmissionKeepsDraft(m: Message, submitted: Result<string, Fault>)
      ensures var p := AfterSubmission(m, submitted);
        p.Success? ==> p.value == m.(txHash := p.value.txHash)
    {
    }

    /** A text whose trimmed form is empty or over the limit is refused, in every mode. */
    lemma InvalidLengthRefused(text: string, id: string, env: Env)
      requires !LengthOk(Trim(text))
      ensures Prepared(text, id, env) == Failure(InvalidArgument(LengthError))
    {
    }

    /** rpc_only mode refuses every valid text. */
    lemma RpcOnlyRefuses(text: string, id: string, env: Env)
      requires LengthOk(Trim(text)) && mode == "rpc_only"
      ensures Prepared(text, id, env) == Failure(Runtime(RpcOnlyCreateError))
    {
    }

    /** server_sign mode stores a message exactly when the submission succeeds, with its hash; otherwise it rethrows. */
    lemma ServerSignOutcome(text: string, id: string, env: Env, submitted: Result<string, Fault>)
      requires LengthOk(Trim(text)) && mode == "server_sign"
      requires submitted == Submitted(ledger, MessageHash(text), env)
      ensures submitted.Success? ==> Prepared(text, id, env) == Success(Drafted(text, id, env.date).(txHash := Some(submitted.value)))
      ensures submitted.Failure? ==> Prepared(text, id, env) == Failure(submitted.error)
    {
    }

    /** mock mode swallows an exception from the ledger and stores the message without a hash. */
    lemma MockSwallowsExceptions(text: string, id: string, env: Env, submitted: Result<string, Fault>)
      requires LengthOk(Trim(text)) && mode == "mock"
      requires submitted == Submitted(ledger, MessageHash(text), env)
      ensures submitted.Success? ==> Prepared(text, id, env) == Success(Drafted(text, id, env.date).(txHash := Some(submitted.value)))
      ensures submitted.Failure? && submitted.error.IsException() ==> Prepared(text, id, env) == Success(Drafted(text, id, env.date))
      ensures submitted.Failure? && !submitted.error.IsException() ==> Prepared(text, id, env) == Failure(submitted.error)
    {
    }

    /** Any other mode stores the message without submitting it. */
    lemma OtherModeStoresUnanchored(text: string, id: string, env: Env)
      requires LengthOk(Trim(text)) && !Submits() && mode != "rpc_only"
      ensures Prepared(text, id, env) == Success(Drafted(text, id, env.date))
      ensures Prepared(text, id, env).value.txHash.None?
    {
    }

    /** Texts that differ only in surrounding whitespace get the same hash. */
    lemma HashIgnoresPadding(p: string, text: string, q: string)
      requires AllTrimChars(p) && AllTrimChars(q)
      ensures MessageHash(p + text + q) == MessageHash(text)
    {
      TrimAbsorbsPadding(p, text, q);
    }

    /**
     * The submitting modes' step of `createMessage`: register the hash with
     * the ledger, attach the transaction hash, or rethrow or swallow the
     * exception as the mode says.
     */
    method Submit(m: Message, env: Env) returns (p: Result<Message, Fault>)
      requires Valid()
      modifies Footprint(ledger)
      ensures Valid()
      ensures p == AfterSubmission(m, Submitted(ledger, m.msgHash, env))
      ensures ledger.Mock? ==>
        ledger.mock.State() == MockClient.Registered(old(ledger.mock.State()), m.msgHash, env.now, env.txBytes, env.delay)
    {
      var submitted := Ledger.RegisterMessage(ledger, m.msgHash, env);
      if submitted.Success? {
        return Success(m.(txHash := Some(submitted.value)));
      } else if mode == "server_sign" || !submitted.error.IsException() {
        return Failure(submitted.error);
      }
      return Success(m);
    }

    /**
     * The first part of `createMessage($text)`: validate, hash, build the
     * message object under the generated `id` and submit it as the mode
     * demands. Nothing is stored yet.
     */
    method PrepareMessage(text: string, id: string, env: Env) returns (p: Result<Message, Fault>)
      requires Valid()
      modifies Footprint(ledger)
      ensures Valid()
      ensures p == Prepared(text, id, env)
      ensures p.Success? ==> p.value.confirmedAt.None?
      ensures unchanged(repository)
      ensures ledger.Mock? ==> (ledger.mock.State() ==
        if LengthOk(Trim(text)) && Submits()
        then MockClient.Registered(old(ledger.mock.State()), MessageHash(text), env.now, env.txBytes, env.delay)
        else old(ledger.mock.State()))
    {
      var message := Trim(text);
      if !(1 <= ByteLength(message) <= MaxMessageBytes) {
        return Failure(InvalidArgument(LengthError));
      }
      var messageObj := Drafted(text, id, env.date);
      PreparedIsPending(text, id, env);
      if mode == "mock" || mode == "server_sign" {
        p := Submit(messageObj, env);
      } else if mode == "rpc_only" {
        p := Failure(Runtime(RpcOnlyCreateError));
      } else {
        p := Success(messageObj);
      }
    }

    /**
     * What `createMessage` returns once the prepared message meets the
     * table: the primary key refuses an id that is already there.
     */
    function Stored(p: Result<Message, Fault>, rows: map<string, Message>): Result<Message, Fault> {
      if p.Success? && p.value.id in rows then Failure(Runtime(DuplicateKeyError)) else p
    }

    /**
     * The insert step of `createMessage`: a prepared message is saved
     * (without a confirmation time); a failure passes through untouched.
     */
    method Store(p: Result<Message, Fault>) returns (r: Result<Message, Fault>)
      requires Valid()
      modifies repository
      ensures Valid()
      ensures r == Stored(p, old(repository.rows))
      ensures repository.rows ==
        if r.Success? then old(repository.rows)[r.value.id := r.value.(confirmedAt := None)] else old(repository.rows)
      ensures repository.order == if r.Success? then old(repository.order) + [r.value.id] else old(repository.order)
      ensures Tables() == old(Tables())
    {
      if p.Failure? {
        return p;
      }
      var error := repository.Create(p.value);
      if error.Some? {
        return Failure(error.value);
      }
      return p;
    }

    /**
     * `createMessage($text)` once the id is drawn: prepare, then store.
     */
    method Insert(text: string, id: string, env: Env) returns (r: Result<Message, Fault>)
      requires Valid()
      modifies repository, Footprint(ledger)
      ensures Valid()
      ensures r == Stored(Prepared(text, id, env), old(repository.rows))
      ensures repository.rows == if r.Success? then old(repository.rows)[r.value.id := r.value] else old(repository.rows)
      ensures repository.order == if r.Success? then old(repository.order) + [r.value.id] else old(repository.order)
      ensures ledger.Mock? ==> (ledger.mock.State() ==
        if LengthOk(Trim(text)) && Submits()
        then MockClient.Registered(old(ledger.mock.State()), MessageHash(text), env.now, env.txBytes, env.delay)
        else old(ledger.mock.State()))
    {
      var messageObj := PrepareMessage(text, id, env);
      r := Store(messageObj);
      assert r.Success? ==> r.value.(confirmedAt := None) == r.value;
    }

    /**
     * `createMessage($text)`: validate, hash, build, submit per mode, store.
     * Nothing is stored when it throws before the insert; a duplicate id
     * makes the insert fail.
     */
    method CreateMessage(text: string, uuidBytes: Bytes16, env: Env) returns (r: Result<Message, Fault>)
      requires Valid()
      modifies repository, Footprint(ledger)
      ensures Valid()
      ensures r == Stored(Prepared(text, GenerateUuid(uuidBytes), env), old(repository.rows))
      ensures repository.rows == if r.Success? then old(repository.rows)[r.value.id := r.value] else old(repository.rows)
      ensures repository.order == if r.Success? then old(repository.order) + [r.value.id] else old(repository.order)
      ensures ledger.Mock? ==> (ledger.mock.State() ==
        if LengthOk(Trim(text)) && Submits()
        then MockClient.Registered(old(ledger.mock.State()), MessageHash(text), env.now, env.txBytes, env.delay)
        else old(ledger.mock.State()))
    {
      var id := GenerateUuid(uuidBytes);
      r := Insert(text, id, env);
    }

    /**
     * `updateMessageStatus($message)`: reconciles the message with its
     * receipt and writes the row only when the status changed.
     */
    method UpdateMessageStatus(message: Message, env: Env) returns (updated: Message)
      requires Valid()
      modifies repository, Footprint(ledger)
      ensures Valid()
      ensures updated == Reconciled(message,
        if Truthy(message.txHash) then old(ReceiptNow(ledger, message.txHash.value, env)) else None, env.date)
      ensures repository.order == old(repository.order)
      ensures updated == message ==> repository.rows == old(repository.rows)
      ensures updated != message ==> (repository.rows ==
        if message.id in old(repository.rows) then
          old(repository.rows)[message.id := old(repository.rows)[message.id].(
            txHash := updated.txHash, status := updated.status,
            blockNumber := updated.blockNumber, confirmedAt := updated.confirmedAt)]
        else old(repository.rows))
      ensures message.id in old(repository.rows) && old(repository.rows)[message.id] == message ==>
        repository.rows == old(repository.rows)[message.id := updated]
      ensures ledger.Mock? ==> (ledger.mock.State() ==
        if Truthy(message.txHash)
        then MockClient.Settle(old(ledger.mock.State()), message.txHash.value, env.now, env.date, env.block)
        else old(ledger.mock.State()))
    {
      if !Truthy(message.txHash) {
        return message;
      }
      var receipt := Ledger.GetReceipt(ledger, message.txHash.value, env);
      if receipt.None? {
        return message;
      }
      var status := if receipt.value.status == JStr(SuccessStatus) then Confirmed else Failed;
      if status != message.status {
        updated := message.(status := status);
        if status == Confirmed {
          updated := updated.(confirmedAt := Some(env.date));
          var block := BlockNumberOf(receipt.value.blockNumber);
          if block.Some? {
            updated := updated.(blockNumber := block);
          }
        }
        repository.Update(updated);
      } else {
        updated := message;
      }
    }

    /**
     * `getMessage($id)`: the stored message, reconciled first when it is
     * pending with a transaction hash; None for an unknown id.
     */
    method GetMessage(id: string, env: Env) returns (m: Option<Message>)
      requires Valid()
      modifies repository, Footprint(ledger)
      ensures Valid()
      ensures repository.order == old(repository.order)
      ensures id !in old(repository.rows) ==>
        && m.None? && repository.rows == old(repository.rows)
        && (ledger.Mock? ==> ledger.mock.State() == old(ledger.mock.State()))
      ensures id in old(repository.rows) ==>
        var stored := old(repository.rows)[id];
        && m == Some(if stored.status == Pending && Truthy(stored.txHash)
                     then Reconciled(stored, old(ReceiptNow(ledger, stored.txHash.value, env)), env.date)
                     else stored)
        && repository.rows == old(repository.rows)[id := m.value]
        && (ledger.Mock? ==>
              ledger.mock.State() ==
              if stored.status == Pending && Truthy(stored.txHash)
              then MockClient.Settle(old(ledger.mock.State()), stored.txHash.value, env.now, env.date, env.block)
              else old(ledger.mock.State()))
      ensures id in old(repository.rows) && m == Some(old(repository.rows)[id]) ==> repository.rows == old(repository.rows)
    {
      var message := repository.FindById(id);
      if message.None? {
        return None;
      }
      if message.value.status == Pending && Truthy(message.value.txHash) {
        var updated := UpdateMessageStatus(message.value, env);
        return Some(updated);
      }
      assert old(repository.rows)[id := message.value] == old(repository.rows);
      return message;
    }

    /** The answer for a message that never got a transaction hash. */
    function Unanchored(stored: Message): Verification {
      Verification(false, stored.status, None, network.GetOr("unknown"), error := Some(NoTxError))
    }

    /** The answer for an anchored message, given the (reconciled) row and the ledger's answers. */
    function Anchored(current: Message, valid: bool, receipt: Option<Receipt>): Verification {
      Verification(
        valid, current.status, current.txHash, network.GetOr("localhost"),
        contractAddress := if Truthy(contractAddress) then contractAddress else None,
        blockNumber := if receipt.Some? then ReportedBlock(receipt.value.blockNumber) else None,
        msgHashMatches := if receipt.Some? && mode != "mock" then Some(true) else None)
    }

    /**
     * The refresh step of `verifyMessage`: a pending message is reconciled
     * and read back from the table; any other message is used as found.
     */
    method RefreshPending(id: string, message: Message, env: Env) returns (current: Message)
      requires Valid()
      requires id in repository.rows && repository.rows[id] == message && Truthy(message.txHash)
      modifies repository, Footprint(ledger)
      ensures Valid()
      ensures current == if message.status == Pending
        then Reconciled(message, old(ReceiptNow(ledger, message.txHash.value, env)), env.date)
        else message
      ensures repository.order == old(repository.order)
      ensures repository.rows == old(repository.rows)[id := current]
      ensures ledger.Mock? ==> (ledger.mock.State() ==
        if message.status == Pending
        then MockClient.Settle(old(ledger.mock.State()), message.txHash.value, env.now, env.date, env.block)
        else old(ledger.mock.State()))
    {
      current := message;
      assert repository.rows[id := message] == repository.rows;
      if message.status == Pending {
        var updated := UpdateMessageStatus(message, env);
        var reloaded := repository.FindById(id);
        current := reloaded.GetOr(message);
        assert current == updated;
      }
    }

    /**
     * The ledger calls of `verifyMessage` for a stored message with a
     * transaction hash: refresh the row when pending, then `isConfirmed`
     * and `getReceipt`. Both answer as the ledger would have when the
     * request began, since the mock settles a hash only once per moment.
     */
    method AskLedger(id: string, message: Message, env: Env) returns (current: Message, valid: bool, receipt: Option<Receipt>)
      requires Valid()
      requires id in repository.rows && repository.rows[id] == message && Truthy(message.txHash)
      modifies repository, Footprint(ledger)
      ensures Valid()
      ensures receipt == old(ReceiptNow(ledger, message.txHash.value, env))
      ensures valid == old(ConfirmedNow(ledger, message.txHash.value, env))
      ensures current == if message.status == Pending then Reconciled(message, receipt, env.date) else message
      ensures repository.order == old(repository.order)
      ensures repository.rows == old(repository.rows)[id := current]
      ensures ledger.Mock? ==>
        ledger.mock.State() == MockClient.Settle(old(ledger.mock.State()), message.txHash.value, env.now, env.date, env.block)
    {
      var txHash := message.txHash.value;
      ghost var receipt0 := ReceiptNow(ledger, txHash, env);
      ghost var confirmed0 := ConfirmedNow(ledger, txHash, env);
      ghost var s0 := Tables();
      current := RefreshPending(id, message, env);
      if ledger.Mock? {
        AnswersStableAfterSettling(s0, txHash, env);
        assert ConfirmedNow(ledger, txHash, env) == confirmed0;
      }
      ghost var s1 := Tables();
      valid := Ledger.IsConfirmed(ledger, txHash, env);
      if ledger.Mock? {
        AnswersStableAfterSettling(s1, txHash, env);
        assert ReceiptNow(ledger, txHash, env) == receipt0;
      }
      receipt := Ledger.GetReceipt(ledger, txHash, env);
    }

    /**
     * `verifyMessage` for a stored message with a transaction hash: the
     * reconciled status together with the ledger's confirmation and
     * receipt, which are those the ledger gave when the request began.
     */
    method VerifyAnchored(id: string, message: Message, env: Env) returns (result: Verification)
      requires Valid()
      requires id in repository.rows && repository.rows[id] == message && Truthy(message.txHash)
      modifies repository, Footprint(ledger)
      ensures Valid()
      ensures var txHash := message.txHash.value;
        var receipt := old(ReceiptNow(ledger, txHash, env));
        var current := if message.status == Pending then Reconciled(message, receipt, env.date) else message;
        && result == Anchored(current, old(ConfirmedNow(ledger, txHash, env)), receipt)
        && repository.order == old(repository.order)
        && repository.rows == old(repository.rows)[id := current]
        && (ledger.Mock? ==>
              ledger.mock.State() == MockClient.Settle(old(ledger.mock.State()), txHash, env.now, env.date, env.block))
    {
      var current, valid, receipt := AskLedger(id, message, env);
      result := Verification(valid, current.status, current.txHash, network.GetOr("localhost"));
      if Truthy(contractAddress) {
        result := result.(contractAddress := contractAddress);
      }
      if receipt.Some? && receipt.value.blockNumber != JNull {
        var blockNumber := if receipt.value.blockNumber.JStr?
          then JInt(HexDec(Drop(receipt.value.blockNumber.s, 2)))
          else receipt.value.blockNumber;
        result := result.(blockNumber := Some(blockNumber));
      }
      if receipt.Some? && mode != "mock" {
        result := result.(msgHashMatches := Some(true));
      }
    }

    /**
     * `verifyMessage($id)`: None for an unknown id; without a transaction
     * hash, an invalid answer and no ledger call; otherwise the reconciled
     * status together with the ledger's confirmation and receipt, which are
     * those the ledger gave when the request began.
     */
    method VerifyMessage(id: string, env: Env) returns (r: Option<Verification>)
      requires Valid()
      modifies repository, Footprint(ledger)
      ensures Valid()
      ensures repository.order == old(repository.order)
      ensures id !in old(repository.rows) ==>
        && r.None? && repository.rows == old(repository.rows)
        && (ledger.Mock? ==> ledger.mock.State() == old(ledger.mock.State()))
      ensures id in old(repository.rows) && !Truthy(old(repository.rows)[id].txHash) ==>
        && r == Some(Unanchored(old(repository.rows)[id]))
        && repository.rows == old(repository.rows)
        && (ledger.Mock? ==> ledger.mock.State() == old(ledger.mock.State()))
      ensures id in old(repository.rows) && Truthy(old(repository.rows)[id].txHash) ==>
        var stored := old(repository.rows)[id];
        var txHash := stored.txHash.value;
        var receipt := old(ReceiptNow(ledger, txHash, env));
        var current := if stored.status == Pending then Reconciled(stored, receipt, env.date) else stored;
        && r == Some(Anchored(current, old(ConfirmedNow(ledger, txHash, env)), receipt))
        && repository.rows == old(repository.rows)[id := current]
        && (ledger.Mock? ==>
              ledger.mock.State() == MockClient.Settle(old(ledger.mock.State()), txHash, env.now, env.date, env.block))
    {
      var found := repository.FindById(id);
      if found.None? {
        return None;
      }
      var message := found.value;
      if !Truthy(message.txHash) {
        return Some(Verification(false, message.status, None, network.GetOr("unknown"), error := Some(NoTxError)));
      }
      var result := VerifyAnchored(id, message, env);
      return Some(result);
    }

    /**
     * One pass of `processPendingMessages`'s loop: message i of `pending`
     * is reconciled with `envs(i)`; `changed` says whether its status moved.
     */
    method ReconcileStep(pending: seq<Message>, envs: nat -> Env, ghost rows0: map<string, Message>,
                         ghost s0: MockClient.MockState, i: nat) returns (changed: bool)
      requires Valid()
      requires i < |pending| && DistinctIds(pending)
      requires pending[i].id in rows0 && rows0[pending[i].id] == pending[i] && AwaitingReceipt(pending[i])
      requires repository.rows == ReconciledRows(rows0, pending, ledger, s0, envs, i)
      requires Tables() == TablesAfter(ledger, s0, pending, envs, i)
      modifies repository, Footprint(ledger)
      ensures Valid()
      ensures repository.order == old(repository.order)
      ensures repository.rows == ReconciledRows(rows0, pending, ledger, s0, envs, i + 1)
      ensures Tables() == TablesAfter(ledger, s0, pending, envs, i + 1)
      ensures |repository.Pending()| + (if changed then 1 else 0) == |old(repository.Pending())|
    {
      var message := pending[i];
      ghost var rowsBefore := repository.rows;
      ghost var receipt := ReceiptAtStep(ledger, s0, pending, envs, i);
      assert Truthy(message.txHash) ==> receipt == ReceiptNow(ledger, message.txHash.value, envs(i));
      ReconciledRowsUntouched(rows0, pending, ledger, s0, envs, i, message.id);
      var updated := UpdateMessageStatus(message, envs(i));
      ReconcileOutcome(message, receipt, envs(i).date);
      changed := updated.status != message.status;
      if changed {
        PendingRowsLeave(repository.order, rowsBefore, message.id, updated);
      }
      assert repository.rows == rowsBefore[message.id := Reconciled(message, receipt, envs(i).date)];
      assert TablesAfter(ledger, s0, pending, envs, i + 1) ==
        if ledger.Mock? && Truthy(message.txHash)
        then MockClient.Settle(TablesAfter(ledger, s0, pending, envs, i), message.txHash.value, envs(i).now, envs(i).date, envs(i).block)
        else TablesAfter(ledger, s0, pending, envs, i);
    }

    /**
     * The loop of `processPendingMessages`: reconciles the messages of
     * `pending` in order and counts the status changes.
     */
    method ReconcileAll(pending: seq<Message>, envs: nat -> Env, ghost rows0: map<string, Message>,
                        ghost s0: MockClient.MockState) returns (processed: nat)
      requires Valid() && DistinctIds(pending)
      requires forall k | 0 <= k < |pending| ::
        pending[k].id in rows0 && rows0[pending[k].id] == pending[k] && AwaitingReceipt(pending[k])
      requires repository.rows == rows0
      requires Tables() == s0
      modifies repository, Footprint(ledger)
      ensures Valid()
      ensures repository.order == old(repository.order)
      ensures repository.rows == ReconciledRows(rows0, pending, ledger, s0, envs, |pending|)
      ensures Tables() == TablesAfter(ledger, s0, pending, envs, |pending|)
      ensures processed == |old(repository.Pending())| - |repository.Pending()|
    {
      processed := 0;
      var i := 0;
      while i < |pending|
        invariant 0 <= i <= |pending|
        invariant Valid()
        invariant repository.order == old(repository.order)
        invariant repository.rows == ReconciledRows(rows0, pending, ledger, s0, envs, i)
        invariant Tables() == TablesAfter(ledger, s0, pending, envs, i)
        invariant |repository.Pending()| + processed == |old(repository.Pending())|
      {
        var changed := ReconcileStep(pending, envs, rows0, s0, i);
        if changed {
          processed := processed + 1;
        }
        i := i + 1;
      }
    }

    /**
     * `processPendingMessages()`: reconciles every pending message with a
     * transaction hash, in table order, message k with `envs(k)`, and counts
     * those whose status changed, which is exactly how many left the
     * pending set. Each such row ends up reconciled with the receipt its
     * step received; every other row is left as it was.
     */
    method ProcessPendingMessages(envs: nat -> Env) returns (processed: nat)
      requires Valid()
      modifies repository, Footprint(ledger)
      ensures Valid()
      ensures processed == |old(repository.Pending())| - |repository.Pending()|
      ensures processed <= |old(repository.Pending())|
      ensures repository.order == old(repository.order)
      ensures repository.rows == ReconciledRows(old(repository.rows), old(repository.Pending()), ledger, old(Tables()), envs,
                                                |old(repository.Pending())|)
      ensures var pending := old(repository.Pending());
        forall k | 0 <= k < |pending| ::
          && pending[k].id in repository.rows
          && repository.rows[pending[k].id]
               == Reconciled(pending[k], ReceiptAtStep(ledger, old(Tables()), pending, envs, k), envs(k).date)
      ensures forall id | id in old(repository.rows) && !AwaitingReceipt(old(repository.rows)[id]) ::
        id in repository.rows && repository.rows[id] == old(repository.rows)[id]
      ensures ledger.Mock? ==>
        ledger.mock.State() == TablesAfter(ledger, old(Tables()), old(repository.Pending()), envs, |old(repository.Pending())|)
    {
      var pending := repository.FindPendingWithTxHash();
      PendingRowsDistinct(repository.order, repository.rows);
      ghost var rows0 := repository.rows;
      ghost var s0 := Tables();
      assert pending == old(repository.Pending()) && rows0 == old(repository.rows) && s0 == old(Tables());
      forall k | 0 <= k < |pending|
        ensures pending[k].id in rows0 && rows0[pending[k].id] == pending[k] && AwaitingReceipt(pending[k])
      {
        assert pending[k] in pending;
      }
      ReconciledRowsOutcome(rows0, pending, ledger, s0, envs);
      processed := ReconcileAll(pending, envs, rows0, s0);
    }
  }
}
