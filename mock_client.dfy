/**
 * The simulated ledger: submissions are held in memory, each scheduled to
 * confirm between 5 and 10 seconds after it was made, and confirmed lazily
 * when it is next asked about. Unknown references (the process restarted)
 * are taken as already confirmed. The clock, `date('c')`, `rand` and
 * `random_bytes` are parameters.
 */
module MockClient {
  import opened Wrappers
  import opened Json
  import opened Blockchain
  import opened PhpStrings

  /** A draw of `rand(1000000, 9999999)`: a simulated block number. */
  type BlockDraw = n: int | 1000000 <= n <= 9999999 witness 1000000

  /** A draw of `rand(5, 10)`: seconds until a submission confirms. */
  type DelayDraw = n: int | 5 <= n <= 10 witness 5

  /** A draw of `random_bytes(32)`. */
  type Bytes32 = s: seq<Byte> | |s| == 32 witness seq(32, _ => 0)

  const TxPending: string := "pending"
  const TxConfirmed: string := "confirmed"

  /** One entry of the in-memory transaction table. */
  datatype TxRecord = TxRecord(
    txHash: string,
    msgHash: string,
    status: string,
    createdAt: int,
    blockNumber: Option<int> := None,
    confirmedAt: Option<string> := None)

  /** The two tables: records by hash, and the confirmation deadline of each still-pending hash. */
  datatype MockState = MockState(transactions: map<string, TxRecord>, pendingConfirmations: map<string, int>)

  /**
   * What the tables always satisfy: a record is pending exactly when a
   * deadline is scheduled for it; pending records have no block number,
   * confirmed ones a simulated one.
   */
  ghost predicate Consistent(s: MockState) {
    && (forall h | h in s.pendingConfirmations :: h in s.transactions)
    && forall h | h in s.transactions :: RecordConsistent(s.transactions[h], h in s.pendingConfirmations)
  }

  ghost predicate RecordConsistent(rec: TxRecord, scheduled: bool) {
    && (rec.status == TxPending || rec.status == TxConfirmed)
    && (rec.status == TxPending <==> scheduled)
    && (rec.status == TxPending ==> rec.blockNumber.None?)
    && (rec.status == TxConfirmed ==> rec.blockNumber.Some? && 1000000 <= rec.blockNumber.value <= 9999999)
  }

  /** The record `getReceipt` settles on for `txHash` at time `now`. */
  function SettledRecord(s: MockState, txHash: string, now: int, date: string, block: BlockDraw): TxRecord {
    if txHash !in s.transactions then
      TxRecord(txHash, "", TxConfirmed, now - 60, Some(block), Some(date))
    else
      var tx := s.transactions[txHash];
      if tx.status == TxPending && txHash in s.pendingConfirmations && now >= s.pendingConfirmations[txHash] then
        tx.(status := TxConfirmed, blockNumber := Some(block), confirmedAt := Some(date))
      else
        tx
  }

  /** The tables after `getReceipt(txHash)` at time `now`. */
  function Settle(s: MockState, txHash: string, now: int, date: string, block: BlockDraw): MockState {
    var rec := SettledRecord(s, txHash, now, date, block);
    MockState(
      s.transactions[txHash := rec],
      if rec.status == TxConfirmed then s.pendingConfirmations - {txHash} else s.pendingConfirmations)
  }

  /** The receipt array `getReceipt` builds from a record. */
  function ReceiptOf(txHash: string, rec: TxRecord): Receipt {
    Receipt(
      JStr(txHash),
      JStr(if rec.status == TxConfirmed then SuccessStatus else FailureStatus),
      if rec.blockNumber.Some? then JInt(rec.blockNumber.value) else JNull,
      JArr([]))
  }

  /** The tables after `registerMessage` files `msgHash` under a fresh hash drawn from `randomBytes`. */
  function Registered(s: MockState, msgHash: string, now: int, randomBytes: Bytes32, delay: DelayDraw): MockState {
    var txHash := "0x" + Bin2Hex(randomBytes);
    MockState(
      s.transactions[txHash := TxRecord(txHash, msgHash, TxPending, now)],
      s.pendingConfirmations[txHash := now + delay])
  }

  /** Registering keeps the tables consistent, and the new hash is scheduled 5 to 10 seconds ahead. */
  lemma RegisterPreservesConsistency(s: MockState, msgHash: string, now: int, randomBytes: Bytes32, delay: DelayDraw)
    requires Consistent(s)
    ensures var s1 := Registered(s, msgHash, now, randomBytes, delay);
      var txHash := "0x" + Bin2Hex(randomBytes);
      && Consistent(s1)
      && s1.transactions[txHash].status == TxPending
      && now + 5 <= s1.pendingConfirmations[txHash] <= now + 10
  {
  }

  /** Settling keeps the tables consistent. */
  lemma SettlePreservesConsistency(s: MockState, txHash: string, now: int, date: string, block: BlockDraw)
    requires Consistent(s)
    ensures Consistent(Settle(s, txHash, now, date, block))
  {
  }

  /**
   * A scheduled submission confirms exactly when the clock has reached its
   * deadline, and then carries a block number in the simulated range.
   */
  lemma ConfirmsAtDeadline(s: MockState, txHash: string, now: int, date: string, block: BlockDraw)
    requires Consistent(s) && txHash in s.pendingConfirmations
    ensures var rec := SettledRecord(s, txHash, now, date, block);
      && (rec.status == TxConfirmed <==> now >= s.pendingConfirmations[txHash])
      && (rec.status == TxConfirmed ==> rec.blockNumber == Some(block as int) && rec.confirmedAt == Some(date))
      && (rec.status != TxConfirmed ==> rec == s.transactions[txHash])
  {
  }

  /** A confirmed record never changes again, whatever the clock and the draws. */
  lemma ConfirmedIsSticky(s: MockState, txHash: string, now: int, date: string, block: BlockDraw)
    requires Consistent(s) && txHash in s.transactions && s.transactions[txHash].status == TxConfirmed
    ensures Settle(s, txHash, now, date, block) == s
  {
    assert txHash !in s.pendingConfirmations;
    assert s.transactions[txHash := s.transactions[txHash]] == s.transactions;
    assert s.pendingConfirmations - {txHash} == s.pendingConfirmations;
  }

  /** An unknown hash is recorded as confirmed, one minute old, with a simulated block. */
  lemma UnknownHashIsConfirmed(s: MockState, txHash: string, now: int, date: string, block: BlockDraw)
    requires txHash !in s.transactions
    ensures var rec := SettledRecord(s, txHash, now, date, block);
      && rec.status == TxConfirmed && rec.createdAt == now - 60 && rec.msgHash == ""
      && Succeeded(ReceiptOf(txHash, rec)) && ReceiptOf(txHash, rec).blockNumber == JInt(block)
  {
  }

  /**
   * Settling twice at the same time is settling once: the second block
   * draw is never used.
   */
  lemma SettleIdempotent(s: MockState, txHash: string, now: int, date: string, block: BlockDraw, block2: BlockDraw)
    requires Consistent(s)
    ensures var s1 := Settle(s, txHash, now, date, block);
      && SettledRecord(s1, txHash, now, date, block2) == SettledRecord(s, txHash, now, date, block)
      && Settle(s1, txHash, now, date, block2) == s1
  {
    var s1 := Settle(s, txHash, now, date, block);
    var rec := SettledRecord(s, txHash, now, date, block);
    assert s1.transactions[txHash] == rec;
    if rec.status == TxConfirmed {
      SettlePreservesConsistency(s, txHash, now, date, block);
      ConfirmedIsSticky(s1, txHash, now, date, block2);
    } else {
      assert txHash in s.transactions;
      assert s1.transactions == s.transactions;
    }
  }

  /**
   * The receipt reports "0x1" exactly for a confirmed record, carries a block
   * number exactly then, and never any logs.
   */
  lemma ReceiptShape(s: MockState, txHash: string, now: int, date: string, block: BlockDraw)
    requires Consistent(s)
    ensures var rec := SettledRecord(s, txHash, now, date, block);
      var r := ReceiptOf(txHash, rec);
      && r.transactionHash == JStr(txHash)
      && (Succeeded(r) <==> rec.status == TxConfirmed)
      && (r.blockNumber.JInt? <==> Succeeded(r))
      && (r.status == JStr(SuccessStatus) || r.status == JStr(FailureStatus))
      && Elements(r.logs) == []
  {
    SettlePreservesConsistency(s, txHash, now, date, block);
  }

  class MockBlockchainClient {
    var transactions: map<string, TxRecord>
    var pendingConfirmations: map<string, int>

    function State(): MockState
      reads this
    {
      MockState(transactions, pendingConfirmations)
    }

    ghost predicate Valid()
      reads this
    {
      Consistent(State())
    }

    constructor ()
      ensures Valid() && transactions == map[] && pendingConfirmations == map[]
    {
      transactions := map[];
      pendingConfirmations := map[];
    }

    /**
     * `registerMessage($msgHash)`: a fresh reference "0x" + 64 lowercase hex
     * digits, recorded as pending at `now` and scheduled to confirm
     * `delay` (5 to 10) seconds later.
     */
    method RegisterMessage(msgHash: string, now: int, randomBytes: Bytes32, delay: DelayDraw) returns (txHash: string)
      requires Valid()
      modifies this
      ensures Valid()
      ensures txHash == "0x" + Bin2Hex(randomBytes)
      ensures |txHash| == 66 && txHash[..2] == "0x" && IsLowerHex(txHash[2..])
      ensures transactions == old(transactions)[txHash := TxRecord(txHash, msgHash, TxPending, now)]
      ensures pendingConfirmations == old(pendingConfirmations)[txHash := now + delay]
      ensures State() == Registered(old(State()), msgHash, now, randomBytes, delay)
      ensures now + 5 <= pendingConfirmations[txHash] <= now + 10
    {
      txHash := "0x" + Bin2Hex(randomBytes);
      assert txHash[2..] == Bin2Hex(randomBytes);
      Bin2HexIsLowerHex(randomBytes);
      transactions := transactions[txHash := TxRecord(txHash, msgHash, TxPending, now)];
      var confirmAfter := now + delay;
      pendingConfirmations := pendingConfirmations[txHash := confirmAfter];
    }

    /**
     * `getReceipt($txHash)`: records an unknown hash as confirmed, confirms
     * a pending one whose deadline has come, and reports the record.
     * Entries of other hashes are untouched.
     */
    method GetReceipt(txHash: string, now: int, date: string, block: BlockDraw) returns (receipt: Receipt)
      requires Valid()
      modifies this
      ensures Valid()
      ensures State() == Settle(old(State()), txHash, now, date, block)
      ensures receipt == ReceiptOf(txHash, SettledRecord(old(State()), txHash, now, date, block))
    {
      if txHash !in transactions {
        transactions := transactions[txHash := TxRecord(txHash, "", TxConfirmed, now - 60, Some(block), Some(date))];
      }
      var tx := transactions[txHash];
      if tx.status == TxPending && txHash in pendingConfirmations {
        if now >= pendingConfirmations[txHash] {
          tx := tx.(status := TxConfirmed, blockNumber := Some(block), confirmedAt := Some(date));
          transactions := transactions[txHash := tx];
          pendingConfirmations := pendingConfirmations - {txHash};
        }
      }
      receipt := ReceiptOf(txHash, tx);
      assert old(txHash !in transactions) ==> txHash !in old(pendingConfirmations);
    }

    /**
     * `isConfirmed($txHash)`: settles the hash (twice, as `isConfirmed` does)
     * and reports whether its record is now confirmed.
     */
    method IsConfirmed(txHash: string, now: int, date: string, block: BlockDraw) returns (confirmed: bool)
      requires Valid()
      modifies this
      ensures Valid()
      ensures State() == Settle(old(State()), txHash, now, date, block)
      ensures confirmed <==> SettledRecord(old(State()), txHash, now, date, block).status == TxConfirmed
    {
      ghost var s0 := State();
      var receipt := GetReceipt(txHash, now, date, block);
      var again := GetReceipt(txHash, now, date, block);
      SettleIdempotent(s0, txHash, now, date, block, block);
      confirmed := txHash in transactions && transactions[txHash].status == TxConfirmed;
    }
  }
}
