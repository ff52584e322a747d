/** JavaScript values and plain objects, and the few built-ins the client relies on. */
module Js {

  /** The integers a JavaScript number holds exactly: at most `Number.MAX_SAFE_INTEGER` (2^53 - 1) in magnitude. */
  type SafeInteger = n: int | -0x1F_FFFF_FFFF_FFFF <= n <= 0x1F_FFFF_FFFF_FFFF

  /** A JavaScript scalar: what an item attribute, a predicate value or an update value holds. */
  datatype Value = Str(s: string) | Num(n: SafeInteger) | Bool(b: bool) | Null | Undefined

  /** `v === null || v === undefined` */
  predicate IsNullish(v: Value) {
    v.Null? || v.Undefined?
  }

  /** The decimal digits of `n`, most significant first. */
  function DigitString(n: nat): string
    decreases n
  {
    var d := "0123456789"[n % 10];
    if n < 10 then [d] else DigitString(n / 10) + [d]
  }

  /** `v.toString()`; JavaScript throws a TypeError when `v` is `null` or `undefined`. */
  function ToString(v: Value): string
    requires !IsNullish(v)
  {
    if v.Str? then v.s
    else if v.Num? then (if v.n < 0 then "-" + DigitString(-v.n) else DigitString(v.n))
    else if v.b then "true" else "false"
  }

  /** One own property of an object: its name and its value. */
  type Entry = (string, Value)

  predicate UniqueKeys(o: seq<Entry>) {
    forall i, j :: 0 <= i < j < |o| ==> o[i].0 != o[j].0
  }

  /** A plain JavaScript object, its properties listed in `for...in` order. */
  type Object = o: seq<Entry> | UniqueKeys(o)

  predicate HasKey(o: seq<Entry>, k: string) {
    exists i :: 0 <= i < |o| && o[i].0 == k
  }

  /** `o[k]` on own properties: the value stored under `k`, or `undefined` when `o` has no own property `k`. */
  function Get(o: seq<Entry>, k: string): (v: Value)
    ensures !HasKey(o, k) ==> v == Undefined
    decreases |o|
  {
    if |o| == 0 then Undefined
    else if o[0].0 == k then o[0].1
    else (assert !HasKey(o, k) ==> !HasKey(o[1..], k) by {
            if HasKey(o[1..], k) { var i :| 0 <= i < |o[1..]| && o[1..][i].0 == k; assert o[i + 1].0 == k; }
          }
          Get(o[1..], k))
  }

  /** Each property of an object is found by its own name. */
  lemma {:induction false} GetAt(o: Object, i: int)
    requires 0 <= i < |o|
    ensures Get(o, o[i].0) == o[i].1
    decreases |o|
  {
    if i > 0 {
      assert o[0].0 != o[i].0;
      var tail: Object := o[1..];
      GetAt(tail, i - 1);
    }
  }

  /** `parts.join(sep)`: empty for no parts, the parts separated by `sep` otherwise. */
  function Join(parts: seq<string>, sep: string): string
    decreases |parts|
  {
    if |parts| == 0 then ""
    else if |parts| == 1 then parts[0]
    else parts[0] + sep + Join(parts[1..], sep)
  }
}

/** Error values and the optional/failure-carrying wrappers used throughout. */
module Outcomes {

  /** Why an operation of the client fails. */
  datatype Error =
    | UnknownTable          // reading `.partitionKey` of the missing schema entry throws a TypeError
    | NullKeyValue          // `toString()` on a null or undefined key value throws a TypeError
    | StoreFailure(reason: string)  // a request to the document store was rejected

  datatype Option<+T> = None | Some(value: T)

  datatype Result<+T> = Success(value: T) | Failure(error: Error)
}
