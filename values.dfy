/** Python values as `json.loads` hands them to the pipeline, and Python's `str()` of them. */
module Values {

  datatype Option<+T> = None | Some(value: T)

  /** A value decoded from a JSON message body: `None`, `bool`, `int`, `str`, `list`, `dict`.
      A JSON number with a fraction or an exponent (a Python `float`) is not modelled. */
  datatype Json =
    | JNull
    | JBool(b: bool)
    | JInt(n: int)
    | JStr(s: string)
    | JArray(items: seq<Json>)
    | JObject(members: seq<Member>)

  /** One key/value pair of a JSON object, in document order. */
  datatype Member = Member(key: string, value: Json)

  predicate IsDigit(c: char) { '0' <= c <= '9' }

  predicate AllDigits(s: string) { forall i :: 0 <= i < |s| ==> IsDigit(s[i]) }

  function DigitChar(d: nat): (c: char)
    requires d < 10
    ensures IsDigit(c) && c as int - '0' as int == d
  {
    ('0' as int + d) as char
  }

  /** The decimal numeral of `n`, most significant digit first, without leading zeros. */
  function Decimal(n: nat): (s: string)
    ensures |s| > 0 && AllDigits(s)
    ensures n >= 10 ==> s[0] != '0'
  {
    if n < 10 then [DigitChar(n)] else Decimal(n / 10) + [DigitChar(n % 10)]
  }

  /** Python's `str(n)` for an `int`. */
  function IntToString(n: int): string
  {
    if n < 0 then "-" + Decimal(-n) else Decimal(n)
  }

  /** Python's `str(v)`: a string is itself, containers are rendered through `repr` of their parts. */
  function Str(v: Json): (r: string)
    ensures |r| == 0 <==> v == JStr("")
  {
    match v
    case JStr(s) => s
    case _ => Repr(v)
  }

  /** Python's `repr(v)`. Quotes inside nested strings are not escaped in this model. */
  function Repr(v: Json): (r: string)
    ensures |r| > 0
    ensures v.JStr? ==> r[0] == '\'' && r[|r| - 1] == '\''
    decreases v, 1
  {
    match v
    case JNull => "None"
    case JBool(b) => if b then "True" else "False"
    case JInt(n) => IntToString(n)
    case JStr(s) => "'" + s + "'"
    case JArray(items) => "[" + ReprItems(items) + "]"
    case JObject(members) => "{" + ReprMembers(members) + "}"
  }

  function ReprItems(items: seq<Json>): string
    decreases items, 0
  {
    if |items| == 0 then ""
    else if |items| == 1 then Repr(items[0])
    else Repr(items[0]) + ", " + ReprItems(items[1..])
  }

  function ReprMembers(members: seq<Member>): string
    decreases members, 0
  {
    if |members| == 0 then ""
    else
      var head := "'" + members[0].key + "': " + Repr(members[0].value);
      if |members| == 1 then head else head + ", " + ReprMembers(members[1..])
  }
}
