/**
 * JSON values as the news views receive them from the content API, with the
 * JavaScript operators the views apply to them: truthiness, `a || b`,
 * `a ?? b`, property reads, `typeof v === "object"`, the string conversion
 * of a template literal, and `Array.prototype.slice`.
 */
module Js {
  import opened Strings

  /** A JavaScript value that can arrive in a parsed response (plus `undefined`,
      which is what reading an absent property gives). Numbers are integers here. */
  datatype Value =
    | Undefined
    | Null
    | Bool(b: bool)
    | Num(n: int)
    | Str(s: string)
    | Arr(items: seq<Value>)
    | Obj(fields: map<string, Value>)

  /** JavaScript truthiness: undefined, null, false, 0 and "" are falsy. */
  predicate Truthy(v: Value) {
    match v
    case Undefined => false
    case Null => false
    case Bool(b) => b
    case Num(n) => n != 0
    case Str(s) => s != ""
    case Arr(_) => true
    case Obj(_) => true
  }

  /** `a || b`: the first operand when it is truthy, otherwise the second. */
  function Or(a: Value, b: Value): Value {
    if Truthy(a) then a else b
  }

  /** `v === null || v === undefined`. */
  predicate Nullish(v: Value) {
    v.Undefined? || v.Null?
  }

  /** `a ?? b`: the first operand unless it is null or undefined. */
  function Coalesce(a: Value, b: Value): Value {
    if Nullish(a) then b else a
  }

  /** `v?.key`: the field of an object, otherwise undefined. Where the source
      writes `v.key` on a value that may be null or undefined, the caller
      checks `Nullish(v)` first, since that read throws a TypeError. */
  function Prop(v: Value, key: string): Value {
    if v.Obj? && key in v.fields then v.fields[key] else Undefined
  }

  /** `typeof v === "object"`, which holds for null and arrays too. */
  predicate IsObjectType(v: Value) {
    v.Null? || v.Arr? || v.Obj?
  }

  /** React refuses a plain object as a child of an element ("Objects are
      not valid as a React child"), also inside an array it renders; every
      other value renders (null, undefined and booleans as nothing). */
  predicate ThrowsAsChild(v: Value) {
    match v
    case Obj(_) => true
    case Arr(items) => exists i :: 0 <= i < |items| && ThrowsAsChild(items[i])
    case _ => false
  }

  /** The string a template literal `${v}` produces. */
  function ToJsString(v: Value): string
    decreases v
  {
    match v
    case Undefined => "undefined"
    case Null => "null"
    case Bool(b) => if b then "true" else "false"
    case Num(n) => IntToString(n)
    case Str(s) => s
    case Arr(items) => JoinElements(v, items)
    case Obj(_) => "[object Object]"
  }

  /** `items.join(",")`, where null and undefined elements become "". */
  function JoinElements(whole: Value, items: seq<Value>): string
    requires whole.Arr? && items <= whole.items
    decreases whole, |items|
  {
    if items == [] then ""
    else
      var last := items[|items| - 1];
      assert last in whole.items;
      var piece := if Nullish(last) then "" else ToJsString(last);
      if |items| == 1 then piece
      else JoinElements(whole, items[..|items| - 1]) + "," + piece
  }

  /** The position a relative index of `slice` denotes in a sequence of length `n`. */
  function RelativeIndex(k: int, n: nat): (p: nat)
    ensures p <= n
    ensures 0 <= k <= n ==> p == k
  {
    if k < 0 then (if n + k < 0 then 0 else n + k) else if k > n then n else k
  }

  /** `s.slice(start, end)`, negative positions counting from the end. */
  function Slice<T>(s: seq<T>, start: int, end: int): (r: seq<T>)
    ensures |r| <= |s|
    ensures 0 <= start <= end ==> r == s[Min(start, |s|)..Min(end, |s|)]
    ensures 0 <= end <= start ==> r == []
  {
    var from := RelativeIndex(start, |s|);
    var to := RelativeIndex(end, |s|);
    if from < to then s[from..to] else []
  }

  function Min(a: int, b: int): int {
    if a < b then a else b
  }
}
