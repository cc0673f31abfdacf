/** Option, Result and the error values the commands raise. */
module Basics {

  datatype Option<+T> = None | Some(value: T)

  datatype Result<+T> = Ok(value: T) | Err(error: Error)

  /** What a command throws. Messages are the literal texts of the source's `new Error(...)`. */
  datatype Error =
    | Thrown(message: string)      // `throw new Error(message)` in the command code
    | BigIntSyntax(text: string)   // SyntaxError: `BigInt(text)` cannot convert the text
    | BigIntUndefined              // TypeError: `BigInt(undefined)`, a missing tuple piece
    | TrimUndefined                // TypeError: `raw.trim()` on a missing tuple piece
    | MixedBigInt                  // TypeError: BigInt gas multiplied by a missing fee
    | Sdk(reason: string)          // raised inside the SDK or by the network, opaque here

  /** JavaScript truthiness of an optional string: present and not empty. */
  predicate Truthy(o: Option<string>)
  {
    o.Some? && o.value != ""
  }

  /** The `a ?? b` operator on optional values: `b` only when `a` is absent. */
  function Coalesce<T>(a: Option<T>, b: Option<T>): Option<T>
  {
    if a.Some? then a else b
  }

  /** Looking a key up in a JavaScript record: absent keys read as `undefined`. */
  function Lookup<K, V>(m: map<K, V>, k: K): Option<V>
  {
    if k in m then Some(m[k]) else None
  }

  /** `Array.prototype.map` with a callback that may throw, given the
      callback's outcome for each element: the callbacks run in order and the
      first one that throws ends the map with its error. */
  function MapOrThrow<T>(rs: seq<Result<T>>): (r: Result<seq<T>>)
    ensures r.Ok? ==> |r.value| == |rs| && forall k :: 0 <= k < |rs| ==> rs[k] == Ok(r.value[k])
    ensures r.Err? ==> exists k :: 0 <= k < |rs| && rs[k] == Err(r.error) && forall j :: 0 <= j < k ==> rs[j].Ok?
  {
    if rs == [] then Ok([])
    else
      match rs[0]
      case Err(e) => Err(e)
      case Ok(x) =>
        match MapOrThrow(rs[1..])
        case Err(e) =>
          ghost var k :| 0 <= k < |rs[1..]| && rs[1..][k] == Err(e) && forall j :: 0 <= j < k ==> rs[1..][j].Ok?;
          assert rs[k + 1] == Err(e) && forall j :: 0 <= j < k + 1 ==> rs[j].Ok?;
          Err(e)
        case Ok(xs) =>
          assert forall k :: 1 <= k < |rs| ==> rs[k] == rs[1..][k - 1];
          Ok([x] + xs)
  }
}
