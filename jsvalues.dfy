/**
 * JavaScript values as `JSON.parse` produces them (plus `undefined`), with the
 * coercions the source relies on: truthiness, `||`, property reads and `String(v)`.
 * Numbers are integers here.
 */
module JsValues {

  datatype Value =
    | Undefined
    | Null
    | Bool(b: bool)
    | Num(n: int)
    | Str(s: string)
    | Arr(items: seq<Value>)
    | Obj(fields: map<string, Value>)

  /** `Boolean(v)`. */
  predicate Truthy(v: Value) {
    match v
    case Undefined => false
    case Null => false
    case Bool(b) => b
    case Num(n) => n != 0
    case Str(s) => s != ""
    case Arr(_) => true
    case Obj(_) => true
  }

  /** `v || w`. */
  function Or(v: Value, w: Value): (r: Value)
    ensures Truthy(r) <==> Truthy(v) || Truthy(w)
  {
    if Truthy(v) then v else w
  }

  /** `typeof v === 'object' && v !== null`. */
  predicate IsObject(v: Value) {
    v.Obj? || v.Arr?
  }

  /** `v === null || v === undefined`: reading a property of such a value throws. */
  predicate IsNullish(v: Value) {
    v.Undefined? || v.Null?
  }

  /**
   * The property read `v[key]` (or `v?.[key]`) for one of the named keys the source
   * reads: only objects carry them; every other value yields `undefined`.
   */
  function Get(v: Value, key: string): Value {
    if v.Obj? && key in v.fields then v.fields[key] else Undefined
  }

  function DigitChar(d: nat): char
    requires d < 10
  {
    ('0' as int + d) as char
  }

  function Decimal(n: nat): string
    decreases n
  {
    if n < 10 then [DigitChar(n)] else Decimal(n / 10) + [DigitChar(n % 10)]
  }

  /** `parts.join(sep)` on strings. */
  function JoinStrings(parts: seq<string>, sep: string): string {
    if parts == [] then ""
    else if |parts| == 1 then parts[0]
    else parts[0] + sep + JoinStrings(parts[1..], sep)
  }

  /** The strings `Array.prototype.join` uses for the elements: `null` and `undefined` become "". */
  function ItemStrings(items: seq<Value>): (r: seq<string>)
    ensures |r| == |items|
    decreases Arr(items), 0
  {
    seq(|items|, i requires 0 <= i < |items| => if IsNullish(items[i]) then "" else ToStr(items[i]))
  }

  /** `String(v)`. */
  function ToStr(v: Value): string
    decreases v, 1
  {
    match v
    case Undefined => "undefined"
    case Null => "null"
    case Bool(b) => if b then "true" else "false"
    case Num(n) => if n < 0 then "-" + Decimal(-n) else Decimal(n)
    case Str(s) => s
    case Arr(items) => JoinStrings(ItemStrings(items), ",")
    case Obj(_) => "[object Object]"
  }
}
