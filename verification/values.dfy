/** JSON-like values as the query builder stores them, and the two text renderings
    the hash uses: the structural text of JSON.stringify and the String(x) conversion
    that the default array sort compares. Numbers are integers only. */
module Values {

  datatype Value =
    | JNull
    | JBool(b: bool)
    | JInt(i: int)
    | JStr(s: string)
    | JArr(elems: seq<Value>)
    | JObj(members: seq<Member>)   // members in the object's enumeration order

  datatype Member = Member(name: string, value: Value)

  function DigitChar(d: nat): (c: char)
    requires d < 10
    ensures '0' <= c <= '9'
    ensures c as int - '0' as int == d
  {
    ['0', '1', '2', '3', '4', '5', '6', '7', '8', '9'][d]
  }

  /** The number a string of decimal digits denotes, most significant first. */
  function DigitsValue(s: string): int
    decreases |s|
  {
    if s == [] then 0 else DigitsValue(s[..|s| - 1]) * 10 + (s[|s| - 1] as int - '0' as int)
  }

  /** The integer a decimal text with an optional leading '-' denotes. */
  function DecimalValue(s: string): int
  {
    if s != [] && s[0] == '-' then -DigitsValue(s[1..]) else DigitsValue(s)
  }

  /** Decimal digits of a natural number, most significant first, without leading
      zeros. */
  function NatToDecimal(n: nat): (r: string)
    ensures |r| > 0
    ensures forall k :: 0 <= k < |r| ==> '0' <= r[k] <= '9'
    ensures r[0] == '0' ==> r == "0"
    ensures DigitsValue(r) == n
  {
    if n < 10 then [DigitChar(n)] else NatToDecimal(n / 10) + [DigitChar(n % 10)]
  }

  /** String(i) for an integer: its decimal digits, without leading zeros, after a
      '-' when it is negative. */
  function IntToDecimal(i: int): (r: string)
    ensures |r| > 0
    ensures (r[0] == '-') <==> i < 0
    ensures forall k :: (if i < 0 then 1 else 0) <= k < |r| ==> '0' <= r[k] <= '9'
    ensures |r| > 1 ==> r[if i < 0 then 1 else 0] != '0'
    ensures DecimalValue(r) == i
  {
    if i < 0 then "-" + NatToDecimal(-i) else NatToDecimal(i)
  }

  /** Strings joined with a separator between neighbours. */
  function Join(parts: seq<string>, sep: string): (r: string)
    ensures parts == [] ==> r == ""
    ensures |parts| == 1 ==> r == parts[0]
  {
    if parts == [] then ""
    else if |parts| == 1 then parts[0]
    else Join(parts[..|parts| - 1], sep) + sep + parts[|parts| - 1]
  }

  /** The structural text of a value (JSON.stringify without string escaping). */
  function Stringify(v: Value): string
  {
    match v
    case JNull => "null"
    case JBool(b) => if b then "true" else "false"
    case JInt(i) => IntToDecimal(i)
    case JStr(s) => "\"" + s + "\""
    case JArr(elems) =>
      "[" + Join(seq(|elems|, k requires 0 <= k < |elems| => Stringify(elems[k])), ",") + "]"
    case JObj(members) =>
      "{" + Join(seq(|members|, k requires 0 <= k < |members| =>
                   "\"" + members[k].name + "\":" + Stringify(members[k].value)), ",") + "}"
  }

  /** String(v): the text the default array sort compares. Inside an array,
      null renders as the empty string (Array.prototype.join). */
  function JsString(v: Value): string
  {
    match v
    case JNull => "null"
    case JBool(b) => if b then "true" else "false"
    case JInt(i) => IntToDecimal(i)
    case JStr(s) => s
    case JArr(elems) =>
      Join(seq(|elems|, k requires 0 <= k < |elems| =>
             if elems[k].JNull? then "" else JsString(elems[k])), ",")
    case JObj(_) => "[object Object]"
  }
}
