/**
 * The JavaScript values the search code reads from a video object (site/lib/search.js),
 * with the coercions it relies on: truthiness, loose comparison with `""`, and the
 * string a value becomes when it is used as a property key.
 */
module JsValues {
  import opened Wrappers
  import opened Text

  /** A property value of a video object, as loaded from the published JSON. */
  datatype Value = Undefined | Null | Bool(b: bool) | Num(n: int) | Str(s: string) | List(items: seq<string>)

  /** A plain object: its own properties. */
  datatype Video = Video(props: map<string, Value>)

  /** A JavaScript exception: reading a property of `undefined`, calling a method a value lacks. */
  datatype Fault = TypeError

  /** `obj[name]`: a property the object lacks reads as `undefined`. */
  function Get(v: Video, name: string): Value {
    if name in v.props then v.props[name] else Undefined
  }

  /** JavaScript truthiness; an array is an object and always truthy. */
  predicate Truthy(x: Value) {
    match x
    case Undefined => false
    case Null => false
    case Bool(b) => b
    case Num(n) => n != 0
    case Str(s) => s != ""
    case List(_) => true
  }

  /** `x != ""` with loose equality: numbers and booleans compare as numbers, arrays as their comma-joined text. */
  predicate LooseNotEmpty(x: Value) {
    match x
    case Undefined => true
    case Null => true
    case Bool(b) => b
    case Num(n) => n != 0
    case Str(s) => s != ""
    case List(items) => Join(items, ',') != ""
  }

  function Digit(d: nat): char
    requires d < 10
  {
    "0123456789"[d]
  }

  /** Decimal digits of a natural number, without leading zeros. */
  function NatToString(n: nat): (r: string)
    ensures r != [] && forall i :: 0 <= i < |r| ==> '0' <= r[i] <= '9'
    ensures |r| > 1 ==> r[0] != '0'
  {
    if n < 10 then [Digit(n)] else NatToString(n / 10) + [Digit(n % 10)]
  }

  /** The value a string of decimal digits denotes. */
  function DigitsValue(s: string): nat
    requires forall i :: 0 <= i < |s| ==> '0' <= s[i] <= '9'
  {
    if s == [] then 0 else 10 * DigitsValue(s[..|s| - 1]) + (s[|s| - 1] - '0') as nat
  }

  /** Reading the digits back gives the number. */
  lemma {:induction false} NatToStringValue(n: nat)
    ensures DigitsValue(NatToString(n)) == n
  {
    if n >= 10 {
      NatToStringValue(n / 10);
      var r := NatToString(n);
      assert r[..|r| - 1] == NatToString(n / 10);
    }
  }

  /** `String(n)` for an integer. */
  function IntToString(n: int): string {
    if n < 0 then "-" + NatToString(-n) else NatToString(n)
  }

  /** `String(x)`: the property key `acc[x]` uses. */
  function PropertyKey(x: Value): string {
    match x
    case Undefined => "undefined"
    case Null => "null"
    case Bool(b) => if b then "true" else "false"
    case Num(n) => IntToString(n)
    case Str(s) => s
    case List(items) => Join(items, ',')
  }
}
