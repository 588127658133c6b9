/**
 * Decoded JSON-RPC values, as `json_decode($body, true)` hands them to the
 * ledger clients, and the PHP array accesses the clients apply to them.
 */
module Json {
  import opened Wrappers

  /**
   * A decoded JSON value. Objects keep their members in document order, as
   * PHP arrays do. (JSON numbers with a fraction are not modelled.)
   */
  datatype Json =
    | JNull
    | JBool(b: bool)
    | JInt(i: int)
    | JStr(s: string)
    | JArr(items: seq<Json>)
    | JObj(members: seq<(string, Json)>)

  /** The value stored under `key`; for a repeated key the last one wins, as in `json_decode`. */
  function Lookup(members: seq<(string, Json)>, key: string): (r: Option<Json>)
    ensures r.Some? <==> exists i | 0 <= i < |members| :: members[i].0 == key
  {
    if members == [] then None
    else if members[|members| - 1].0 == key then Some(members[|members| - 1].1)
    else Lookup(members[..|members| - 1], key)
  }

  /** A key finds the value stored with it when no later member repeats the key. */
  lemma {:induction false} LookupFinds(members: seq<(string, Json)>, i: nat)
    requires i < |members|
    requires forall j | i < j < |members| :: members[j].0 != members[i].0
    ensures Lookup(members, members[i].0) == Some(members[i].1)
  {
    if i < |members| - 1 {
      LookupFinds(members[..|members| - 1], i);
    }
  }

  /**
   * `$j[$key]` guarded by `isset`/`??`: present only when `j` is an object
   * holding a non-null value under `key`. On a list, a string or a scalar
   * PHP's `isset` is false for a non-numeric key, and so is it here.
   */
  function Get(j: Json, key: string): (r: Option<Json>)
    ensures r.Some? ==> r.value != JNull
  {
    match j
    case JObj(members) =>
      (match Lookup(members, key)
       case Some(v) => if v == JNull then None else Some(v)
       case None => None)
    case _ => None
  }

  /** `$r[$key] ?? null` where `$r` itself may be null. */
  function At(r: Option<Json>, key: string): Option<Json> {
    if r.None? then None else Get(r.value, key)
  }

  /**
   * The values a `foreach` visits: a list's items, an object's member values
   * in order; nothing for a scalar (PHP warns and skips the loop).
   */
  function Elements(j: Json): seq<Json> {
    match j
    case JArr(items) => items
    case JObj(members) => seq(|members|, i requires 0 <= i < |members| => members[i].1)
    case _ => []
  }

  /**
   * The JSON-RPC transport: the decoded response to a call of `method` with
   * `params`, or None when the HTTP request failed, the status was not 200,
   * or the body was not valid JSON. An RPC-level `error` object is returned
   * as it is, without a `result` member.
   */
  type Rpc = (string, seq<Json>) -> Option<Json>

  /** `isset($response['result']) ? $response['result'] : null` */
  function ResultOf(response: Option<Json>): Option<Json> {
    At(response, "result")
  }
}
