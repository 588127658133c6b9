/**
 * The `messages` table as a keyed store: rows by id, plus the order rows
 * were inserted in, which is the order the pending query returns them in.
 */
module Persistence {
  import opened Wrappers
  import opened Faults
  import opened Domain

  /** The message SQLite's PDO driver raises for a second row with the same id. */
  const DuplicateKeyError: string := "SQLSTATE[23000]: Integrity constraint violation: 19 UNIQUE constraint failed: messages.id"

  /** `status = 'pending' AND tx_hash IS NOT NULL` */
  predicate AwaitingReceipt(m: Message) {
    m.status == Pending && m.txHash.Some?
  }

  /** The rows of `ids` that match the pending query, in the order of `ids`. */
  function PendingRows(ids: seq<string>, rows: map<string, Message>): (r: seq<Message>)
    ensures |r| <= |ids|
    ensures forall m | m in r :: AwaitingReceipt(m) && m.id in ids && m.id in rows && rows[m.id] == m
  {
    if ids == [] then []
    else if ids[0] in rows && rows[ids[0]].id == ids[0] && AwaitingReceipt(rows[ids[0]]) then
      [rows[ids[0]]] + PendingRows(ids[1..], rows)
    else PendingRows(ids[1..], rows)
  }

  predicate Distinct(ids: seq<string>) {
    forall i, j | 0 <= i < j < |ids| :: ids[i] != ids[j]
  }

  /** No two messages share an id. */
  predicate DistinctIds(ms: seq<Message>) {
    forall i, j | 0 <= i < j < |ms| :: ms[i].id != ms[j].id
  }

  lemma HeadNotInTail(ids: seq<string>)
    requires ids != [] && Distinct(ids)
    ensures ids[0] !in ids[1..] && Distinct(ids[1..])
  {
  }

  /** The pending query never returns the same row twice. */
  lemma {:induction false} PendingRowsDistinct(ids: seq<string>, rows: map<string, Message>)
    requires Distinct(ids)
    ensures DistinctIds(PendingRows(ids, rows))
  {
    if ids != [] {
      HeadNotInTail(ids);
      PendingRowsDistinct(ids[1..], rows);
      var rest := PendingRows(ids[1..], rows);
      if ids[0] in rows && rows[ids[0]].id == ids[0] && AwaitingReceipt(rows[ids[0]]) {
        var r := [rows[ids[0]]] + rest;
        assert r == PendingRows(ids, rows);
        forall i, j | 0 <= i < j < |r| ensures r[i].id != r[j].id {
          assert r[j] == rest[j - 1];
          if i == 0 {
            assert rest[j - 1] in rest;
          } else {
            assert r[i] == rest[i - 1];
          }
        }
      }
    }
  }

  /**
   * Moving one row of `ids` out of the pending state shortens the pending
   * query's answer by exactly one.
   */
  lemma {:induction false} PendingRowsLeave(ids: seq<string>, rows: map<string, Message>, id: string, m: Message)
    requires Distinct(ids) && id in ids && id in rows && rows[id].id == id && AwaitingReceipt(rows[id])
    requires m.id == id && !AwaitingReceipt(m)
    ensures |PendingRows(ids, rows[id := m])| + 1 == |PendingRows(ids, rows)|
  {
    HeadNotInTail(ids);
    if ids[0] == id {
      PendingRowsUnaffected(ids[1..], rows, id, m);
    } else {
      PendingRowsLeave(ids[1..], rows, id, m);
    }
  }

  /** Changing a row outside `ids` does not change the pending query's answer over `ids`. */
  lemma {:induction false} PendingRowsUnaffected(ids: seq<string>, rows: map<string, Message>, id: string, m: Message)
    requires id !in ids
    ensures PendingRows(ids, rows[id := m]) == PendingRows(ids, rows)
  {
    if ids != [] {
      PendingRowsUnaffected(ids[1..], rows, id, m);
    }
  }

  class MessageRepository {
    /** The table: rows by primary key. */
    var rows: map<string, Message>
    /** Primary keys in insertion order. */
    var order: seq<string>

    ghost predicate Valid()
      reads this
    {
      && Distinct(order)
      && (forall id :: id in rows <==> id in order)
      && (forall id | id in rows :: rows[id].id == id)
    }

    constructor ()
      ensures Valid() && rows == map[] && order == []
    {
      rows := map[];
      order := [];
    }

    /**
     * `create($message)`: INSERT of every column but confirmed_at. An id
     * already present violates the primary key and the insert fails.
     */
    method Create(m: Message) returns (error: Option<Fault>)
      requires Valid()
      modifies this
      ensures Valid()
      ensures m.id in old(rows) ==> error == Some(Runtime(DuplicateKeyError)) && rows == old(rows) && order == old(order)
      ensures m.id !in old(rows) ==>
        error.None? && rows == old(rows)[m.id := m.(confirmedAt := None)] && order == old(order) + [m.id]
    {
      if m.id in rows {
        return Some(Runtime(DuplicateKeyError));
      }
      rows := rows[m.id := m.(confirmedAt := None)];
      order := order + [m.id];
      return None;
    }

    /**
     * `findById($id)`: the row, read back through `Message::fromArray`,
     * which rebuilds exactly the message that was stored.
     */
    method FindById(id: string) returns (m: Option<Message>)
      requires Valid()
      ensures m == if id in rows then Some(rows[id]) else None
    {
      if id !in rows {
        return None;
      }
      FromArrayToArray(rows[id]);
      m := Some(FromArray(ToArray(rows[id])).value);
    }

    /**
     * `update($message)`: overwrites tx_hash, status, block_number and
     * confirmed_at of the row with the message's id; no such row, no change.
     */
    method Update(m: Message)
      requires Valid()
      modifies this
      ensures Valid()
      ensures order == old(order)
      ensures rows == if m.id in old(rows) then
          old(rows)[m.id := old(rows)[m.id].(txHash := m.txHash, status := m.status,
                                             blockNumber := m.blockNumber, confirmedAt := m.confirmedAt)]
        else old(rows)
    {
      if m.id in rows {
        rows := rows[m.id := rows[m.id].(txHash := m.txHash, status := m.status,
                                         blockNumber := m.blockNumber, confirmedAt := m.confirmedAt)];
      }
    }

    /** The answer of the pending query in the current state. */
    function Pending(): seq<Message>
      reads this
    {
      PendingRows(order, rows)
    }

    /** `findPendingWithTxHash()`: the pending rows that carry a transaction hash. */
    method FindPendingWithTxHash() returns (ms: seq<Message>)
      requires Valid()
      ensures ms == Pending()
      ensures forall m | m in ms :: AwaitingReceipt(m) && m.id in rows && rows[m.id] == m
      ensures forall id | id in rows && AwaitingReceipt(rows[id]) :: rows[id] in ms
    {
      PendingRowsComplete(order, rows);
      ms := PendingRows(order, rows);
    }
  }

  /** Every awaiting row of `ids` is in the pending query's answer. */
  lemma {:induction false} PendingRowsComplete(ids: seq<string>, rows: map<string, Message>)
    requires forall id | id in ids :: id in rows && rows[id].id == id
    ensures forall id | id in ids && AwaitingReceipt(rows[id]) :: rows[id] in PendingRows(ids, rows)
  {
    if ids != [] {
      PendingRowsComplete(ids[1..], rows);
    }
  }
}
