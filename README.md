# HashNote message anchoring, modelled in Dafny

HashNote anchors short text messages on an Ethereum-style ledger. Creating a message does four things:

- trims and length-checks the text;
- hashes it with Keccak-256;
- gives it a random version-4 UUID;
- submits the hash through one of three interchangeable ledger clients, chosen by `BLOCKCHAIN_MODE`, and stores the message.

Later requests and a background job reconcile a pending message with the ledger's receipt. A receipt with status `0x1` confirms the message, and any other status fails it; the row is written only when the status changes. A per-identifier sliding-window rate limiter sits beside this.

Each module models one part of the system:

- `RateLimit` (rate_limiter.dfy): the in-memory sliding-window limiter. It is a class whose `requests` map the methods reassign, with the eviction filter as a function and the lemmas about it.
- `Domain` (message.dfy): the `Message` record with its constructor defaults, `toArray` and `fromArray`. `fromArray` raises a TypeError under strict types when a field has the wrong type.
- `Json` (json.dfy): decoded JSON-RPC answers and PHP's `isset`/`??` access to them. The HTTP transport `rpcCall` is a function parameter `Rpc` from a method and its parameters to an optional decoded response.
- `Blockchain`, `Ledger` (blockchain.dfy, ledger.dfy): the `BlockchainClient` interface as a closed datatype over the three clients. It dispatches `registerMessage`, `getReceipt` and `isConfirmed`. The specification functions `Submitted`, `ReceiptNow` and `ConfirmedNow` say what each call answers. `Env` carries what a request reads from outside: the clock, `date('c')`, the random draws and the node.
- `MockClient` (mock_client.dfy): the simulated ledger, a class over its `transactions` and `pendingConfirmations` maps. Its methods are proved against the state functions `Registered` and `Settle`, and the table invariant `Consistent` is preserved.
- `RpcClient` (rpc_client.dfy): the read-only client. It has receipt normalisation with defaults, confirmation with an optional case-insensitive contract-log search, and a `registerMessage` that always throws.
- `ServerSignClient` (server_sign_client.dfy): the signing client.
  - The constructor's key check and address derivation are modelled as `Create`.
  - Nonce, gas price with the 2 gwei floor, gas limit, chain id, signing and broadcasting are decisions over node answers.
  - The six-step `registerMessage` pipeline stops at the first step that throws.
- `Persistence` (message_repository.dfy): the `messages` table as a keyed store that keeps its insertion order. It offers create (the primary key refuses duplicates with SQLite's UNIQUE violation), find, update of the four mutable columns, and the pending query.
- `Service` (message_service.dfy): the message service.
  - Validation is on the UTF-8 byte length of the trimmed text.
  - Mode-dependent submission: `server_sign` rethrows, `mock` swallows exceptions, `rpc_only` refuses.
  - Reconciliation is `Reconciled`; it writes only on change.
  - `getMessage`, `verifyMessage` and `processPendingMessages` are modelled, along with UUID generation.
  - Each request method states the store's rows and id order, and the mock's tables, after the call. The background job is specified by two folds over the pending list: `ReconciledRows` for the rows and `TablesAfter` for the mock's tables. `ReceiptAtStep` gives the receipt each step sees.
- `PhpStrings`, `Faults`, `Wrappers`: the PHP built-ins used (`trim`, `strlen`, `bin2hex`, `hexdec`, `dechex`, `ctype_xdigit`, `strtolower`, `substr`, truthiness), the exception classes, and Option/Result.

The model keeps these behaviours of the code, which a reader of the message lifecycle might not expect:

- The length limit counts bytes (`strlen`), not characters. 141 copies of `é` are rejected (`Service.LimitCountsBytes`).
- A missing receipt leaves a message pending. The mock, however, answers a still-pending transaction with a `0x0` receipt rather than none. Reconciling a mock message before its deadline therefore marks it failed for good (`Service.MockEarlyReconcileFails`).
- Block height and confirmation time are not always set together. The code sets the confirmation time on every entry into `confirmed`, and the block number only when the receipt carries one (`Service.ReconcileOutcome`).
- A contract address configured as `""` is falsy for the gas and data choices but kept by `??` as the recipient. Such a transaction goes to the empty address (`ServerSignClient.EmptyContractAddressIsRecipient`).

## Model

| member | source | states |
|---|---|---|
| RateLimit.Evict | src/Infrastructure/RateLimit/InMemoryRateLimiter.php:26-29 | the filter keeps no more timestamps than it was given, and each kept one is from the list and inside the window |
| RateLimit.EvictKeepsExactlyInWindow | src/Infrastructure/RateLimit/InMemoryRateLimiter.php:26-29 | eviction keeps every in-window timestamp as often as it occurs, drops every other one, and keeps the original order |
| RateLimit.EvictIdempotent | src/Infrastructure/RateLimit/InMemoryRateLimiter.php:51-54 | filtering again at the same time removes nothing more |
| RateLimit.EvictDropsExpired | src/Infrastructure/RateLimit/InMemoryRateLimiter.php:26-29 | a timestamp a full window old is gone after eviction |
| RateLimit.InMemoryRateLimiter.constructor | src/Infrastructure/RateLimit/InMemoryRateLimiter.php:9-14 | a new limiter has the given limit and window and no entries |
| RateLimit.InMemoryRateLimiter.IsAllowed | src/Infrastructure/RateLimit/InMemoryRateLimiter.php:16-40 | admits iff fewer than maxRequests in-window timestamps remain; the entry becomes the evicted list plus `now` on admission and the evicted list alone on rejection; other identifiers are unchanged; every stored list stays within the limit |
| RateLimit.InMemoryRateLimiter.GetRemaining | src/Infrastructure/RateLimit/InMemoryRateLimiter.php:42-57 | an unseen identifier gets maxRequests and no entry is created; otherwise the entry is evicted and the answer is max(0, limit - count), between 0 and the limit |
| RateLimit.BurstThenWindowElapses | src/Infrastructure/RateLimit/InMemoryRateLimiter.php:16-40 | with the clock fixed, a fresh identifier is admitted exactly maxRequests times, then rejected, then admitted again one window later |
| Domain.ToArray | src/Domain/Message.php:20-32 | the array has exactly the eight keys id, message, msg_hash, tx_hash, status, block_number, confirmed_at, created_at, in that order |
| Domain.NewMessageDefaults | src/Domain/Message.php:9-18 | a message built from id, text and hash alone is pending, with no tx hash, block number or confirmation time and an empty creation time |
| Domain.ToArrayGetsStrings | src/Domain/Message.php:20-32 | the keys id, message, msg_hash, status and created_at hold the fields' strings |
| Domain.ToArrayGetsNullables | src/Domain/Message.php:20-32 | the keys tx_hash, block_number and confirmed_at hold the fields' values, null when the field is null |
| Domain.ToArrayGets | src/Domain/Message.php:20-32 | each key of the array holds its field's value, and null optionals read as absent |
| Domain.FromArrayToArray | src/Domain/Message.php:20-46 | fromArray(toArray(m)) rebuilds m field for field |
| Domain.FromArrayMissingOptionals | src/Domain/Message.php:40-43 | absent or null tx_hash, block_number and confirmed_at become null fields |
| Domain.FromArrayNeedsRequiredStrings | src/Domain/Message.php:34-46 | a missing, null or non-string id, message, msg_hash, status or created_at makes fromArray raise a TypeError |
| Json.Get | src/Infrastructure/Blockchain/RpcBlockchainClient.php:31-41 | an isset-guarded access never yields null |
| PhpStrings.Trim | src/Service/MessageService.php:27 | the trimmed text neither starts nor ends with a trim character |
| PhpStrings.TrimIsMiddle | src/Service/MessageService.php:27 | trim keeps a contiguous middle part of its input and removes only trim characters around it |
| PhpStrings.TrimIdempotent | src/Service/MessageService.php:27 | trimming twice is trimming once |
| PhpStrings.TrimAbsorbsPadding | src/Service/MessageService.php:27 | text padded on either side with trim characters trims to the same string as the text |
| PhpStrings.ByteLength | src/Service/MessageService.php:28 | the UTF-8 byte length lies between the character count and four times it |
| PhpStrings.AsciiByteLength | src/Service/MessageService.php:28 | on ASCII text strlen equals the character count |
| PhpStrings.NonAsciiByteLength | src/Service/MessageService.php:28 | one non-ASCII character makes strlen exceed the character count |
| PhpStrings.Bin2Hex | src/Infrastructure/Blockchain/MockBlockchainClient.php:21 | bin2hex writes two characters per byte |
| PhpStrings.Bin2HexIsLowerHex | src/Infrastructure/Blockchain/MockBlockchainClient.php:21 | bin2hex writes lower-case hex digits only |
| PhpStrings.Bin2HexReadsBack | src/Service/MessageService.php:326-328 | digits 2i and 2i+1 of bin2hex are the high and low nibble of byte i and read back as that byte |
| PhpStrings.DecHex | src/Infrastructure/Blockchain/ServerSignBlockchainClient.php:83 | dechex is non-empty lower-case hex with no leading zero except for 0 itself |
| PhpStrings.HexDecOfDecHex | src/Infrastructure/Blockchain/ServerSignBlockchainClient.php:83 | hexdec(dechex(n)) == n |
| PhpStrings.Drop | src/Service/MessageService.php:223 | substr from n has length len - n, or is empty past the end |
| PhpStrings.Strip0x | src/Infrastructure/Blockchain/ServerSignBlockchainClient.php:21-23 | exactly one leading "0x" is removed when present; otherwise the string is unchanged |
| PhpStrings.ToLower | src/Infrastructure/Blockchain/RpcBlockchainClient.php:59-61 | strtolower maps each character through ASCII lower-casing and keeps the length |
| PhpStrings.ToLowerIdempotent | src/Infrastructure/Blockchain/RpcBlockchainClient.php:59-61 | lower-casing twice is lower-casing once |
| MockClient.RegisterPreservesConsistency | src/Infrastructure/Blockchain/MockBlockchainClient.php:22-31 | registering keeps the tables consistent; the new record is pending with a deadline 5 to 10 seconds ahead |
| MockClient.SettlePreservesConsistency | src/Infrastructure/Blockchain/MockBlockchainClient.php:46-72 | settling a hash keeps the tables consistent |
| MockClient.ConfirmsAtDeadline | src/Infrastructure/Blockchain/MockBlockchainClient.php:65-72 | a scheduled record confirms iff now >= its deadline, and then gets the drawn block number and the current date; otherwise it is unchanged |
| MockClient.ConfirmedIsSticky | src/Infrastructure/Blockchain/MockBlockchainClient.php:65-77 | settling a confirmed hash changes nothing, whatever the clock and the draws |
| MockClient.UnknownHashIsConfirmed | src/Infrastructure/Blockchain/MockBlockchainClient.php:46-54 | an unknown hash is recorded as confirmed, one minute old, with an empty msg hash, and its receipt reports 0x1 with the drawn block |
| MockClient.SettleIdempotent | src/Infrastructure/Blockchain/MockBlockchainClient.php:83-95 | settling twice at the same time is settling once; the second block draw is never used |
| MockClient.ReceiptShape | src/Infrastructure/Blockchain/MockBlockchainClient.php:75-80 | the receipt echoes the hash, reports 0x1 iff the record is confirmed and 0x0 otherwise, has a block number exactly then, and never has logs |
| MockClient.MockBlockchainClient.constructor | src/Infrastructure/Blockchain/MockBlockchainClient.php:12-17 | a new mock has empty tables |
| MockClient.MockBlockchainClient.RegisterMessage | src/Infrastructure/Blockchain/MockBlockchainClient.php:19-40 | returns "0x" + 64 lower-case hex digits from the 32 random bytes, stores a pending record with the msg hash and a deadline now+5..now+10, and changes no other entry |
| MockClient.MockBlockchainClient.GetReceipt | src/Infrastructure/Blockchain/MockBlockchainClient.php:42-81 | the new tables are Settle(old tables) and the receipt is that of the settled record |
| MockClient.MockBlockchainClient.IsConfirmed | src/Infrastructure/Blockchain/MockBlockchainClient.php:83-95 | true iff the settled record is confirmed; the tables are settled exactly once |
| RpcClient.NormalizeReceipt | src/Infrastructure/Blockchain/RpcBlockchainClient.php:37-42 | each receipt field is the node's value when set, else the default: the queried hash, 0x0, null, no logs |
| RpcClient.AnyLogFromContract | src/Infrastructure/Blockchain/RpcBlockchainClient.php:60-65 | the log loop returns true iff some log's address lower-cases to the contract |
| RpcClient.RpcBlockchainClient.RegisterMessage | src/Infrastructure/Blockchain/RpcBlockchainClient.php:18-25 | always throws a RuntimeException |
| RpcClient.RpcBlockchainClient.GetReceipt | src/Infrastructure/Blockchain/RpcBlockchainClient.php:27-43 | null iff the response has no non-null result; otherwise the normalised result |
| RpcClient.RpcBlockchainClient.IsConfirmed | src/Infrastructure/Blockchain/RpcBlockchainClient.php:45-69 | true iff a receipt exists with status exactly "0x1" and, when a contract is configured (PHP-truthy), some log's address equals it ignoring case |
| RpcClient.ContractOnlyNarrows | src/Infrastructure/Blockchain/RpcBlockchainClient.php:58-68 | configuring a contract never turns an unconfirmed transaction into a confirmed one and does not change the receipt |
| RpcClient.FalsyContractIsNone | src/Infrastructure/Blockchain/RpcBlockchainClient.php:58 | a contract of "" or "0" behaves as no contract |
| RpcClient.NoResultNoReceipt | src/Infrastructure/Blockchain/RpcBlockchainClient.php:29-33 | an RPC error object or a null result gives no receipt and no confirmation |
| RpcClient.MissingStatusIsFailure | src/Infrastructure/Blockchain/RpcBlockchainClient.php:39-55 | a receipt without status reads as 0x0 and is not confirmed |
| ServerSignClient.QuantityRoundTrip | src/Infrastructure/Blockchain/ServerSignBlockchainClient.php:83 | hexdec(substr('0x'.dechex(n), 2)) == n |
| ServerSignClient.MinGasPriceHexValue | src/Infrastructure/Blockchain/ServerSignBlockchainClient.php:198-200 | the floor is written 0x77359400 and reads back as 2 gwei |
| ServerSignClient.SimpleTransferGasValue | src/Infrastructure/Blockchain/ServerSignBlockchainClient.php:75 | 0x5208 is 21000 |
| ServerSignClient.ValidKeyIs64HexDigits | src/Infrastructure/Blockchain/ServerSignBlockchainClient.php:21-26 | the key check passes iff the key, after one optional "0x", is exactly 64 hex digits |
| ServerSignClient.GetNonce | src/Infrastructure/Blockchain/ServerSignBlockchainClient.php:160-189 | no result means "Failed to get nonce"; a nonce is only ever read from a result of the pending-count call |
| ServerSignClient.NonceIsPendingCount | src/Infrastructure/Blockchain/ServerSignBlockchainClient.php:169-179 | a pending count of n, as a quantity, gives nonce n |
| ServerSignClient.GetGasPrice | src/Infrastructure/Blockchain/ServerSignBlockchainClient.php:191-233 | never below 2 gwei; the floor on no result or a lower price; otherwise the node's string unchanged; throws only for a non-string result |
| ServerSignClient.EstimateGas | src/Infrastructure/Blockchain/ServerSignBlockchainClient.php:235-255 | 100000 without a result; otherwise the estimate plus a fifth of it, truncated |
| ServerSignClient.MarginBounds | src/Infrastructure/Blockchain/ServerSignBlockchainClient.php:249 | the margin never lowers an estimate and adds at most a fifth of it |
| ServerSignClient.EncodeContractCall | src/Infrastructure/Blockchain/ServerSignBlockchainClient.php:257-269 | the call data is the message hash, with or without a contract |
| ServerSignClient.GetChainId | src/Infrastructure/Blockchain/ServerSignBlockchainClient.php:361-377 | the node's chain id when given; otherwise Sepolia's (11155111) for "sepolia" or no network, and mainnet's (1) for anything else |
| ServerSignClient.SignTransaction | src/Infrastructure/Blockchain/ServerSignBlockchainClient.php:271-315 | the signer's raw transaction on the decoded fields and the key without "0x"; a signer failure becomes "Failed to sign transaction: ..." |
| ServerSignClient.SendRawTransaction | src/Infrastructure/Blockchain/ServerSignBlockchainClient.php:317-344 | broadcasts "0x" + payload; no result fails with "Failed to send transaction: " and the node's error; a success is the node's result |
| ServerSignClient.NodeErrorMessage | src/Infrastructure/Blockchain/ServerSignBlockchainClient.php:327-335 | the node's error message is passed on, and "Unknown error" when there is no response |
| ServerSignClient.ServerSignBlockchainClient.constructor | src/Infrastructure/Blockchain/ServerSignBlockchainClient.php:14-19 | the client holds the given key, contract, network, sender address and signer |
| ServerSignClient.ServerSignBlockchainClient.RegisterMessage | src/Infrastructure/Blockchain/ServerSignBlockchainClient.php:47-134 | the result is the pipeline nonce, gas price, gas limit, transaction, sign, send, which stops at the first failure; a success implies a transaction was built |
| ServerSignClient.ServerSignBlockchainClient.GetReceipt | src/Infrastructure/Blockchain/ServerSignBlockchainClient.php:136-146 | equals the read-only client's receipt with the same contract |
| ServerSignClient.ServerSignBlockchainClient.IsConfirmed | src/Infrastructure/Blockchain/ServerSignBlockchainClient.php:148-158 | equals the read-only client's answer with the same contract |
| ServerSignClient.Create | src/Infrastructure/Blockchain/ServerSignBlockchainClient.php:14-45 | a malformed key fails with InvalidArgumentException before derivation; a derivation failure is wrapped twice; success iff both pass, with sender "0x" + derived address |
| ServerSignClient.SignedTransactionFields | src/Infrastructure/Blockchain/ServerSignBlockchainClient.php:82-92 | the signed fields: nonce = pending count, gas price >= 2 gwei, gas 21000 without a contract, recipient the contract or else the sender, value 0, data the message hash |
| ServerSignClient.EmptyContractAddressIsRecipient | src/Infrastructure/Blockchain/ServerSignBlockchainClient.php:73-90 | a "" contract gives the plain-transfer gas yet the empty recipient |
| ServerSignClient.NoNonceNoSubmission | src/Infrastructure/Blockchain/ServerSignBlockchainClient.php:169-177 | without a nonce the submission fails with "Failed to get nonce" and nothing is signed or sent |
| Ledger.ConfirmedHasSuccessfulReceipt | src/Domain/Blockchain/BlockchainClient.php:21-28 | for every client, confirmed implies a receipt with status 0x1; for the mock, the converse holds too |
| Ledger.RegisterMessage | src/Domain/Blockchain/BlockchainClient.php:14 | the answer is the chosen client's submission; only the mock's tables change, to Registered(old) |
| Ledger.GetReceipt | src/Domain/Blockchain/BlockchainClient.php:21 | the chosen client's receipt in the state before the call; the mock is settled |
| Ledger.IsConfirmed | src/Domain/Blockchain/BlockchainClient.php:28 | the chosen client's confirmation in the state before the call; the mock is settled |
| Ledger.AnswersStableAfterSettling | src/Service/MessageService.php:191-200 | after the mock has settled a hash, asking again at the same time gives the same receipt and leaves the tables alone |
| Persistence.PendingRows | src/Infrastructure/Persistence/MessageRepository.php:72-84 | the pending query returns only stored rows that are pending with a tx hash |
| Persistence.PendingRowsDistinct | src/Infrastructure/Persistence/MessageRepository.php:72-84 | the pending query never returns a row twice |
| Persistence.PendingRowsComplete | src/Infrastructure/Persistence/MessageRepository.php:72-84 | every stored row that is pending with a tx hash is returned |
| Persistence.PendingRowsLeave | src/Infrastructure/Persistence/MessageRepository.php:72-84 | moving one row out of the pending state shortens the answer by exactly one |
| Persistence.PendingRowsUnaffected | src/Infrastructure/Persistence/MessageRepository.php:72-84 | changing a row the query does not visit leaves its answer unchanged |
| Persistence.MessageRepository.constructor | src/Infrastructure/Persistence/MessageRepository.php:12-14 | a new store is empty |
| Persistence.MessageRepository.Create | src/Infrastructure/Persistence/MessageRepository.php:16-32 | inserts the message without confirmed_at and appends its id; a present id fails with a unique violation and changes nothing |
| Persistence.MessageRepository.FindById | src/Infrastructure/Persistence/MessageRepository.php:34-50 | the stored row read back through fromArray, which is exactly the stored message, or null |
| Persistence.MessageRepository.Update | src/Infrastructure/Persistence/MessageRepository.php:52-70 | overwrites tx_hash, status, block_number and confirmed_at of that id's row only; an unknown id changes nothing |
| Persistence.MessageRepository.FindPendingWithTxHash | src/Infrastructure/Persistence/MessageRepository.php:72-84 | exactly the rows that are pending with a tx hash, each as stored |
| Service.TwoByteText | src/Service/MessageService.php:28 | text of two-byte characters has twice as many bytes as characters |
| Service.TrimKeepsUnpadded | src/Service/MessageService.php:27 | text that starts and ends with non-blank characters is left alone by trim |
| Service.LimitCountsBytes | src/Service/MessageService.php:27-35 | 141 copies of 'é', 141 characters, are rejected because they are 282 bytes |
| Service.AsciiLimitAccepted | src/Service/MessageService.php:27-35 | 280 ASCII characters are at the limit and accepted |
| Service.UuidFormat | src/Service/MessageService.php:323-329 | the id has 36 characters in 8-4-4-4-12 lower-case hex groups, version digit 4 (RFC 9562, section 5.4) and variant digit 8, 9, a or b (RFC 9562, section 4.1) |
| Service.VersionBits | src/Service/MessageService.php:326 | masking byte b with 0x0f and setting bit 0x40 gives b mod 16 + 0x40 |
| Service.VariantBits | src/Service/MessageService.php:327 | masking byte b with 0x3f and setting bit 0x80 gives b mod 64 + 0x80 |
| Service.StatusFor | src/Service/MessageService.php:261 | confirmed iff the receipt status is exactly "0x1", failed otherwise |
| Service.ReconcileOutcome | src/Service/MessageService.php:236-304 | reconciliation keeps the readonly fields and the tx hash; it either changes nothing or moves to the receipt's status, never back to pending; confirmedAt is set on entering confirmed; entering failed touches nothing else |
| Service.ReconcileIdempotent | src/Service/MessageService.php:270-297 | reconciling again with the same receipt changes nothing |
| Service.ConfirmedBlockNumber | src/Service/MessageService.php:273-280 | a hex block number in the receipt is stored as the number it encodes |
| Service.MockEarlyReconcileFails | src/Service/MessageService.php:251-272 | with the mock, reconciling before the deadline marks the message failed |
| Service.MockReconcileAfterDeadline | src/Service/MessageService.php:270-280 | with the mock, reconciling at or after the deadline confirms it with the drawn block and the current date |
| Service.MessageService.constructor | src/Service/MessageService.php:13-17 | the service holds the given store, ledger client and configuration |
| Service.MessageService.PreparedIsPending | src/Service/MessageService.php:44-53 | a message that gets stored has a valid length, is pending, and holds the trimmed text, "0x" + keccak(trimmed), the generated id and the creation date, with no confirmation or block |
| Service.MessageService.SubmissionKeepsDraft | src/Service/MessageService.php:69-89 | submission changes at most the tx hash of the drafted message |
| Service.MessageService.InvalidLengthRefused | src/Service/MessageService.php:27-35 | an empty or over-long trimmed text fails with the length InvalidArgumentException in every mode |
| Service.MessageService.RpcOnlyRefuses | src/Service/MessageService.php:90-100 | rpc_only refuses every valid text with a RuntimeException |
| Service.MessageService.ServerSignOutcome | src/Service/MessageService.php:69-89 | server_sign stores the message with its tx hash when submission succeeds and rethrows its failure otherwise |
| Service.MessageService.MockSwallowsExceptions | src/Service/MessageService.php:69-89 | mock stores the message with its tx hash, or without one when submission throws an Exception; a TypeError escapes |
| Service.MessageService.OtherModeStoresUnanchored | src/Service/MessageService.php:62-102 | any other mode stores the drafted message without submitting it |
| Service.MessageService.HashIgnoresPadding | src/Service/MessageService.php:27-38 | texts that differ only in surrounding whitespace get the same hash |
| Service.MessageService.Submit | src/Service/MessageService.php:69-89 | the submission's outcome per mode, AfterSubmission of the ledger's answer; the mock's tables become Registered(old) |
| Service.MessageService.PrepareMessage | src/Service/MessageService.php:19-100 | validates, builds and submits per mode without touching the store; the result is Prepared(...) and is never confirmed |
| Service.MessageService.Store | src/Service/MessageService.php:102 | a message is inserted without a confirmation time and its id appended, unless its id is taken, which raises the UNIQUE violation and writes nothing; a refusal passes through unstored; the mock's tables stay as they were |
| Service.MessageService.Insert | src/Service/MessageService.php:19-110 | createMessage for a given id: the result is Prepared refused on a duplicate id; the store gains exactly that row, appended, iff the result is a success; the mock registers iff the text is valid and the mode submits |
| Service.MessageService.CreateMessage | src/Service/MessageService.php:19-110 | the same outcome for the id generated from the random bytes |
| Service.MessageService.UpdateMessageStatus | src/Service/MessageService.php:236-304 | the result is the message reconciled with the receipt as it was before the call; the row is written only when that changes the message, and only its four mutable columns; for a message read from the store, the row becomes the result |
| Service.MessageService.GetMessage | src/Service/MessageService.php:112-126 | null and nothing changed for an unknown id; otherwise the row becomes the returned message, which is the stored one reconciled when it was pending with a tx hash and the stored one itself otherwise; the mock settles that hash only in the first case; the id order never changes |
| Service.MessageService.RefreshPending | src/Service/MessageService.php:163-182 | a pending message is reconciled and read back; any other is used as found; the row becomes the message used and the id order is unchanged |
| Service.MessageService.AskLedger | src/Service/MessageService.php:163-200 | refreshes the row, then asks isConfirmed and getReceipt; both answers equal what the ledger gave at the start of the request; the mock's tables end settled once for the hash |
| Service.MessageService.VerifyAnchored | src/Service/MessageService.php:163-233 | the verification of an anchored message is built from the refreshed message and the two ledger answers; the row becomes the refreshed message and the mock's tables settle once |
| Service.MessageService.VerifyMessage | src/Service/MessageService.php:128-234 | null and nothing changed for an unknown id; without a tx hash, valid=false, tx_hash null and 'No transaction hash' with no ledger call and no write; otherwise the reconciled status with the confirmation and receipt the ledger gave at the start of the request, that message written back as the row, and the mock's tables settled once for the hash; the id order never changes |
| Service.ReconciledRowsUntouched | src/Service/MessageService.php:306-321 | reconciling a list of pending messages leaves every row whose id is not in the list as it was |
| Service.ReconciledRowsDone | src/Service/MessageService.php:306-321 | after the loop has passed message k, its row holds the message reconciled with the receipt of step k, when the ids in the list are distinct |
| Service.ReconciledRowsOutcome | src/Service/MessageService.php:306-321 | over the whole pending list read from the store, each such row becomes its reconciled form and every row that was not awaiting a receipt is unchanged |
| Service.MessageService.ReconcileStep | src/Service/MessageService.php:311-318 | one pass of the loop: the rows, the mock's tables and the count of changed messages advance by that message's reconciliation |
| Service.MessageService.ReconcileAll | src/Service/MessageService.php:308-320 | the loop over the pending list: the rows end as the whole list reconciled in order, the mock's tables as settled hash by hash, and the count equals how many left the pending set |
| Service.MessageService.ProcessPendingMessages | src/Service/MessageService.php:306-321 | every message that was pending with a tx hash is reconciled with the receipt of its own step, in list order; every other row is unchanged; the mock's tables end settled hash by hash; the count of changed messages equals how many left the pending set, so is at most its size; the id order never changes |

## Left out

- `rpcCall` (HTTP, curl, `json_decode`) is the `Rpc` parameter. JSON numbers with a fraction are not modelled.
- `Rpc`: a body that decodes to a JSON scalar (a bare string, number or boolean) makes `rpcCall`'s `?array` return type throw a `TypeError` (src/Infrastructure/Blockchain/RpcBlockchainClient.php:71, src/Infrastructure/Blockchain/ServerSignBlockchainClient.php:379). The model reads such an answer like a missing `result`: no receipt, not confirmed, or the fallbacks and "Failed to get nonce" of the signing client.
- Keccak-256, the EIP-155 signing library and address derivation are function-valued fields (`keccak`, `signer`, `derive`); their internals are not modelled.
- `time()`, `date('c')`, `rand()` and `random_bytes()` come in an `Env`, one per request. Both `time()` reads within one call are taken as equal. One block-number draw serves the whole request, which suffices because the mock draws at most once per hash and time.
- Logging is left out throughout; it carries no behaviour.
- `BlockchainService` only forwards calls to the client, so the service calls the client directly. Configuration wiring, controllers, middleware and the CLI scripts are not part of this model.
- The SQL schema's constraints beyond the primary key, and the database's own ordering of the pending query, are not modelled. The pending query returns rows in insertion order.
- `Message` objects are mutated in place in PHP and shared between caller and callee. The model passes them as values and returns the updated message; `GetMessage` and `RefreshPending` return what PHP's shared object would hold.
- `ServerSignClient.EstimateGas`: the margin `(int)($estimated * 1.2)` is modelled as integer `estimated * 12 / 10`. The two agree only while the double product `$estimated * 1.2` stays below 2^52. From about 3.75·10^15 up (for example 3752999689475414, where the double product rounds up to 4503599627370497 and the model gives 4503599627370496), the float product can round across an integer, and that is not modelled. Real gas estimates are many orders of magnitude smaller.
- `PhpStrings.HexDec`: PHP's `hexdec` returns a float above PHP_INT_MAX. The model keeps the exact integer, and `(int)` casts of such floats are not modelled.
- `Domain.FromArray`: rows from the database always have the right column types, so the TypeError paths of `fromArray` matter only for hand-built arrays. The type errors of `substr` on a non-string node answer are modelled; those of `strtolower` on a non-string log address, and of a non-integer block number stored into `?int`, are not.
- The throwing `ServerSignBlockchainClient` constructor is modelled as the factory `ServerSignClient.Create`, which returns the exception as a `Failure`.
- `generateUuid` masks and sets bits with `&` and `|`. `Service.UuidBytes` writes the same as arithmetic on byte values, and `Service.VersionBits` and `Service.VariantBits` show the two agree.
- Concurrency across requests and processes is not modelled; each method is one sequential request.
