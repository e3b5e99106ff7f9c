/**
 * The JavaScript values that flow through the client: decoded JSON plus
 * `undefined`, with the three language rules the client depends on —
 * truthiness, `typeof v === 'object'`, and the coercion of a value to a
 * property key when it is used to index a plain object.
 * Numbers are integers here; floating point is not modelled.
 */
module JsonValues {

  datatype Json =
    | Undefined
    | Null
    | Bool(b: bool)
    | Num(n: int)
    | Str(s: string)
    | Arr(items: seq<Json>)
    | Obj(fields: map<string, Json>)

  /** JavaScript truthiness: `undefined`, `null`, `false`, `0` and `""` are falsy. */
  predicate Truthy(v: Json) {
    match v
    case Undefined => false
    case Null => false
    case Bool(b) => b
    case Num(n) => n != 0
    case Str(s) => s != ""
    case Arr(_) => true
    case Obj(_) => true
  }

  /** `typeof v === 'object'`, which holds of `null` and of arrays as well. */
  predicate IsObjectType(v: Json) {
    v.Null? || v.Arr? || v.Obj?
  }

  /** The property read `v[k]` for a value that is not `null`: only a plain
      object's own fields are visible; anything else reads as `undefined`. */
  function Member(v: Json, k: string): (r: Json)
    ensures !v.Obj? ==> r == Undefined
    ensures v.Obj? && k !in v.fields ==> r == Undefined
  {
    if v.Obj? && k in v.fields then v.fields[k] else Undefined
  }

  /** The object `v` with field `k` set to `x`; values other than plain objects are returned as they are. */
  function Assign(v: Json, k: string, x: Json): (r: Json)
    ensures v.Obj? ==> r.Obj? && Member(r, k) == x
    ensures forall k' :: k' != k ==> Member(r, k') == Member(v, k')
    ensures r.Obj? == v.Obj? && (!v.Obj? ==> r == v)
  {
    if v.Obj? then Obj(v.fields[k := x]) else v
  }

  function Digit(d: nat): char
    requires d < 10
  {
    "0123456789"[d]
  }

  /** The value of a decimal digit character. */
  function DigitValue(ch: char): int {
    ch as int - '0' as int
  }

  /** The number a string of decimal digits denotes, most significant first. */
  function NatValue(s: string): int {
    if |s| == 0 then 0 else NatValue(s[..|s| - 1]) * 10 + DigitValue(s[|s| - 1])
  }

  /** The number a decimal text with an optional leading `-` denotes. */
  function IntValue(s: string): int {
    if |s| > 0 && s[0] == '-' then -NatValue(s[1..]) else NatValue(s)
  }

  /** Decimal digits of a natural number, most significant first; they read
      back as the number. */
  function NatText(n: nat): (r: string)
    ensures |r| > 0 && forall i :: 0 <= i < |r| ==> '0' <= r[i] <= '9'
    ensures NatValue(r) == n
    decreases n
  {
    if n < 10 then
      assert DigitValue(Digit(n)) == n by {
        assert n == 0 || n == 1 || n == 2 || n == 3 || n == 4 || n == 5 || n == 6 || n == 7 || n == 8 || n == 9;
      }
      assert [Digit(n)][..0] == [];
      [Digit(n)]
    else
      var prefix := NatText(n / 10);
      var d := n % 10;
      assert DigitValue(Digit(d)) == d by {
        assert d == 0 || d == 1 || d == 2 || d == 3 || d == 4 || d == 5 || d == 6 || d == 7 || d == 8 || d == 9;
      }
      assert (prefix + [Digit(d)])[..|prefix|] == prefix;
      prefix + [Digit(d)]
  }

  /** `String(n)` for an integer: a `-` exactly for a negative number, and
      the text reads back as the number. */
  function IntText(n: int): (r: string)
    ensures |r| > 0
    ensures (r[0] == '-') <==> n < 0
    ensures r[0] == '-' || '0' <= r[0] <= '9'
    ensures IntValue(r) == n
  {
    if n < 0 then
      var digits := NatText(-n);
      assert ("-" + digits)[1..] == digits;
      "-" + digits
    else NatText(n)
  }

  /** The string a value becomes when it is used as the key of a plain object. */
  function PropertyKey(v: Json): string
    decreases v, 1
  {
    match v
    case Undefined => "undefined"
    case Null => "null"
    case Bool(b) => if b then "true" else "false"
    case Num(n) => IntText(n)
    case Str(s) => s
    case Obj(_) => "[object Object]"
    case Arr(items) => JoinFrom(items, 0)
  }

  /** `Array.prototype.join(",")` from index `i` on: `null` and `undefined` print as nothing. */
  function JoinFrom(items: seq<Json>, i: nat): string
    requires i <= |items|
    decreases Arr(items), 0, |items| - i
  {
    if i == |items| then ""
    else
      var text := if items[i].Null? || items[i].Undefined? then "" else PropertyKey(items[i]);
      (if i == 0 then "" else ",") + text + JoinFrom(items, i + 1)
  }
}
