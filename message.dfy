/**
 * The anchored message record and its array form, the shape in which it is
 * stored in the database and returned to HTTP callers.
 */
module Domain {
  import opened Wrappers
  import opened Faults
  import opened Json

  const Pending: string := "pending"
  const Confirmed: string := "confirmed"
  const Failed: string := "failed"

  /**
   * A message. The constructor's defaults are those of the PHP constructor:
   * a new message is pending, with no transaction hash, block number or
   * confirmation time, and an empty creation time unless one is given.
   */
  datatype Message = Message(
    id: string,
    message: string,
    msgHash: string,
    txHash: Option<string> := None,
    status: string := Pending,
    blockNumber: Option<int> := None,
    confirmedAt: Option<string> := None,
    createdAt: string := "")

  /**
   * The readonly properties (id, text, hash, creation time) agree; only
   * txHash, status, blockNumber and confirmedAt may differ.
   */
  predicate SameIdentity(a: Message, b: Message) {
    a.id == b.id && a.message == b.message && a.msgHash == b.msgHash && a.createdAt == b.createdAt
  }

  /** The array keys of a stored message, in the order `toArray` writes them. */
  const RowKeys: seq<string> :=
    ["id", "message", "msg_hash", "tx_hash", "status", "block_number", "confirmed_at", "created_at"]

  function KeysOf(members: seq<(string, Json)>): seq<string> {
    seq(|members|, i requires 0 <= i < |members| => members[i].0)
  }

  function OptString(s: Option<string>): Json {
    if s.Some? then JStr(s.value) else JNull
  }

  function OptInt(n: Option<int>): Json {
    if n.Some? then JInt(n.value) else JNull
  }

  /** `Message::toArray()`. */
  function ToArray(m: Message): (r: Json)
    ensures r.JObj? && KeysOf(r.members) == RowKeys
  {
    JObj([("id", JStr(m.id)),
          ("message", JStr(m.message)),
          ("msg_hash", JStr(m.msgHash)),
          ("tx_hash", OptString(m.txHash)),
          ("status", JStr(m.status)),
          ("block_number", OptInt(m.blockNumber)),
          ("confirmed_at", OptString(m.confirmedAt)),
          ("created_at", JStr(m.createdAt))])
  }

  /** The type PHP names in a TypeError for a value read with `$data[$key]` or `?? null`. */
  function GivenType(v: Option<Json>): string {
    match v
    case None => "null"
    case Some(JNull) => "null"
    case Some(JBool(_)) => "bool"
    case Some(JInt(_)) => "int"
    case Some(JStr(_)) => "string"
    case Some(_) => "array"
  }

  /** The TypeError strict types raise for constructor argument `arg` (e.g. `Argument #3 ($msgHash)`). */
  function ArgumentTypeError(arg: string, expected: string, v: Option<Json>): Fault {
    TypeFault("HashNote\\Domain\\Message::__construct(): " + arg + " must be of type " + expected + ", "
              + GivenType(v) + " given")
  }

  /**
   * `$data[$key]` passed to the `string` parameter `arg` under strict types:
   * a missing key or null reads as null and, like a non-string, is a TypeError.
   */
  function RequiredString(data: Json, key: string, arg: string): Result<string, Fault> {
    match Get(data, key)
    case Some(JStr(s)) => Success(s)
    case _ => Failure(ArgumentTypeError(arg, "string", Get(data, key)))
  }

  /** `$data[$key] ?? null` passed to the `?string` parameter `arg`. */
  function NullableString(data: Json, key: string, arg: string): Result<Option<string>, Fault> {
    match Get(data, key)
    case None => Success(None)
    case Some(JStr(s)) => Success(Some(s))
    case _ => Failure(ArgumentTypeError(arg, "?string", Get(data, key)))
  }

  /** `$data[$key] ?? null` passed to the `?int` parameter `arg`. */
  function NullableInt(data: Json, key: string, arg: string): Result<Option<int>, Fault> {
    match Get(data, key)
    case None => Success(None)
    case Some(JInt(n)) => Success(Some(n))
    case _ => Failure(ArgumentTypeError(arg, "?int", Get(data, key)))
  }

  /** `Message::fromArray($data)`: the first ill-typed argument raises a TypeError. */
  function FromArray(data: Json): Result<Message, Fault> {
    var id := RequiredString(data, "id", "Argument #1 ($id)");
    var message := RequiredString(data, "message", "Argument #2 ($message)");
    var msgHash := RequiredString(data, "msg_hash", "Argument #3 ($msgHash)");
    var txHash := NullableString(data, "tx_hash", "Argument #4 ($txHash)");
    var status := RequiredString(data, "status", "Argument #5 ($status)");
    var blockNumber := NullableInt(data, "block_number", "Argument #6 ($blockNumber)");
    var confirmedAt := NullableString(data, "confirmed_at", "Argument #7 ($confirmedAt)");
    var createdAt := RequiredString(data, "created_at", "Argument #8 ($createdAt)");
    if id.Failure? then Failure(id.error)
    else if message.Failure? then Failure(message.error)
    else if msgHash.Failure? then Failure(msgHash.error)
    else if txHash.Failure? then Failure(txHash.error)
    else if status.Failure? then Failure(status.error)
    else if blockNumber.Failure? then Failure(blockNumber.error)
    else if confirmedAt.Failure? then Failure(confirmedAt.error)
    else if createdAt.Failure? then Failure(createdAt.error)
    else Success(Message(id.value, message.value, msgHash.value, txHash.value, status.value,
                         blockNumber.value, confirmedAt.value, createdAt.value))
  }

  /** A message built with only id, text and hash is pending with nothing else set. */
  lemma NewMessageDefaults(id: string, text: string, hash: string)
    ensures var m := Message(id, text, hash);
      m.status == Pending && m.txHash.None? && m.blockNumber.None? && m.confirmedAt.None? && m.createdAt == ""
  {
  }

  /** The string columns of `toArray($m)` hold their fields. */
  lemma ToArrayGetsStrings(m: Message)
    ensures var r := ToArray(m);
      && Get(r, "id") == Some(JStr(m.id))
      && Get(r, "message") == Some(JStr(m.message))
      && Get(r, "msg_hash") == Some(JStr(m.msgHash))
      && Get(r, "status") == Some(JStr(m.status))
      && Get(r, "created_at") == Some(JStr(m.createdAt))
  {
    var ms := ToArray(m).members;
    assert Get(ToArray(m), "id") == Some(JStr(m.id)) by { LookupFinds(ms, 0); }
    assert Get(ToArray(m), "message") == Some(JStr(m.message)) by { LookupFinds(ms, 1); }
    assert Get(ToArray(m), "msg_hash") == Some(JStr(m.msgHash)) by { LookupFinds(ms, 2); }
    assert Get(ToArray(m), "status") == Some(JStr(m.status)) by { LookupFinds(ms, 4); }
    assert Get(ToArray(m), "created_at") == Some(JStr(m.createdAt)) by { LookupFinds(ms, 7); }
  }

  /** The nullable columns of `toArray($m)` hold their fields, a null one reading as absent. */
  lemma ToArrayGetsNullables(m: Message)
    ensures var r := ToArray(m);
      && Get(r, "tx_hash") == (if m.txHash.Some? then Some(JStr(m.txHash.value)) else None)
      && Get(r, "block_number") == (if m.blockNumber.Some? then Some(JInt(m.blockNumber.value)) else None)
      && Get(r, "confirmed_at") == (if m.confirmedAt.Some? then Some(JStr(m.confirmedAt.value)) else None)
  {
    var ms := ToArray(m).members;
    assert Lookup(ms, "tx_hash") == Some(OptString(m.txHash)) by { LookupFinds(ms, 3); }
    assert Lookup(ms, "block_number") == Some(OptInt(m.blockNumber)) by { LookupFinds(ms, 5); }
    assert Lookup(ms, "confirmed_at") == Some(OptString(m.confirmedAt)) by { LookupFinds(ms, 6); }
  }

  lemma ToArrayGets(m: Message)
    ensures var r := ToArray(m);
      && Get(r, "id") == Some(JStr(m.id))
      && Get(r, "message") == Some(JStr(m.message))
      && Get(r, "msg_hash") == Some(JStr(m.msgHash))
      && Get(r, "tx_hash") == (if m.txHash.Some? then Some(JStr(m.txHash.value)) else None)
      && Get(r, "status") == Some(JStr(m.status))
      && Get(r, "block_number") == (if m.blockNumber.Some? then Some(JInt(m.blockNumber.value)) else None)
      && Get(r, "confirmed_at") == (if m.confirmedAt.Some? then Some(JStr(m.confirmedAt.value)) else None)
      && Get(r, "created_at") == Some(JStr(m.createdAt))
  {
    ToArrayGetsStrings(m);
    ToArrayGetsNullables(m);
  }

  /** `fromArray(toArray($m))` rebuilds `$m` field for field. */
  lemma FromArrayToArray(m: Message)
    ensures FromArray(ToArray(m)) == Success(m)
  {
    var r := ToArray(m);
    ToArrayGets(m);
    assert RequiredString(r, "id", "Argument #1 ($id)") == Success(m.id);
    assert RequiredString(r, "message", "Argument #2 ($message)") == Success(m.message);
    assert RequiredString(r, "msg_hash", "Argument #3 ($msgHash)") == Success(m.msgHash);
    assert NullableString(r, "tx_hash", "Argument #4 ($txHash)") == Success(m.txHash);
    assert RequiredString(r, "status", "Argument #5 ($status)") == Success(m.status);
    assert NullableInt(r, "block_number", "Argument #6 ($blockNumber)") == Success(m.blockNumber);
    assert NullableString(r, "confirmed_at", "Argument #7 ($confirmedAt)") == Success(m.confirmedAt);
    assert RequiredString(r, "created_at", "Argument #8 ($createdAt)") == Success(m.createdAt);
  }

  /**
   * `fromArray` on a row without tx_hash, block_number and confirmed_at (or
   * with them null) gives a message with all three null.
   */
  lemma FromArrayMissingOptionals(data: Json)
    requires FromArray(data).Success?
    requires Get(data, "tx_hash").None? && Get(data, "block_number").None? && Get(data, "confirmed_at").None?
    ensures var m := FromArray(data).value;
      m.txHash.None? && m.blockNumber.None? && m.confirmedAt.None?
  {
  }

  /** `fromArray` fails exactly when a required key is missing, null or not a string. */
  lemma FromArrayNeedsRequiredStrings(data: Json, key: string)
    requires key in ["id", "message", "msg_hash", "status", "created_at"]
    requires !(Get(data, key).Some? && Get(data, key).value.JStr?)
    ensures FromArray(data).Failure? && FromArray(data).error.TypeFault?
  {
  }
}
