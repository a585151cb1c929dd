/**
 * Property and column values, the PHP string cast that `implode` applies to
 * them, and the equality the database applies in a `column = ?` predicate.
 */
module Values {
  import opened Wrappers
  import opened PhpArrays

  datatype Value = Null | Int(i: int) | Str(s: string) | Bool(b: bool)

  function Digit(d: nat): char
    requires d < 10
  {
    "0123456789"[d]
  }

  /** The decimal form of a natural number. */
  function NatString(n: nat): (r: string)
    ensures |r| > 0
    ensures forall j :: 0 <= j < |r| ==> '0' <= r[j] <= '9'
    decreases n
  {
    if n < 10 then [Digit(n)] else NatString(n / 10) + [Digit(n % 10)]
  }

  /** `(string) $i` for an integer. */
  function DecimalString(i: int): string
  {
    if i < 0 then "-" + NatString(-i) else NatString(i)
  }

  /** `(string) $v`: null and false give "", true gives "1". */
  function CastToString(v: Value): string
  {
    match v
    case Null => ""
    case Int(i) => DecimalString(i)
    case Str(s) => s
    case Bool(b) => if b then "1" else ""
  }

  /** `implode(' ', $values)`. */
  function Implode(vs: seq<Value>): string
  {
    if vs == [] then ""
    else if |vs| == 1 then CastToString(vs[0])
    else CastToString(vs[0]) + " " + Implode(vs[1..])
  }

  /** `$a[$k] ?? null`: a missing key reads as null. */
  function At(a: seq<(string, Value)>, k: string): Value
  {
    match Get(a, k)
    case Some(v) => v
    case None => Null
  }

  /** `isset($a[$k])`: present and not null. */
  predicate IsSet(a: seq<(string, Value)>, k: string)
  {
    Get(a, k).Some? && Get(a, k).value != Null
  }

  function Number(v: Value): int
    requires v.Int? || v.Bool?
  {
    if v.Int? then v.i else if v.b then 1 else 0
  }

  /**
   * `a = b` in a WHERE clause: NULL equals nothing, booleans compare as 0
   * and 1, a string equals a number when it is that number's decimal form.
   */
  predicate SqlEquals(a: Value, b: Value)
  {
    if a.Null? || b.Null? then false
    else if a.Str? && b.Str? then a.s == b.s
    else if a.Str? then a.s == DecimalString(Number(b))
    else if b.Str? then b.s == DecimalString(Number(a))
    else Number(a) == Number(b)
  }
}
