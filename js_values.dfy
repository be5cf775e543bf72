/** The JavaScript values that reach the handlers from a parsed JSON body,
    and the coercions the handlers apply to them: truthiness (`!!v`,
    `a || b`), `Number(v) || d`, and the string a value becomes when it is
    used as an object key. */
module JsValues {
  import opened JsText

  /** `None` is JavaScript's `null` or `undefined` (a field left out). */
  datatype Option<T> = None | Some(value: T)

  /** A JSON value. Numbers are integers here; objects and arrays are
      not looked into. */
  datatype Json = JNull | JBool(b: bool) | JNumber(n: int) | JString(s: string) | JObject

  /** What `Number(v)` gives: a number, or NaN. */
  datatype Num = Num(n: int) | NaN

  /** `!!v` */
  predicate Truthy(v: Json) {
    match v
    case JNull => false
    case JBool(b) => b
    case JNumber(n) => n != 0
    case JString(s) => s != []
    case JObject => true
  }

  /** `a || b` where `a` is a string field that may be absent. */
  function OrElse(a: Option<string>, b: string): (r: string)
    ensures a.Some? && a.value != [] ==> r == a.value
    ensures (a.None? || a.value == []) ==> r == b
  {
    if a.Some? && a.value != [] then a.value else b
  }

  /** `Number(v) || fallback`: zero and NaN give way to the fallback. */
  function NumberOr(v: Num, fallback: int): (r: int)
    ensures v.Num? && v.n != 0 ==> r == v.n
    ensures (v.NaN? || v.n == 0) ==> r == fallback
  {
    match v
    case Num(n) => if n != 0 then n else fallback
    case NaN => fallback
  }

  /** `String(v)`: the key under which `obj[v]` looks a value up. */
  function PropertyKey(v: Json): (k: string)
    ensures v.JString? ==> k == v.s
  {
    match v
    case JNull => "null"
    case JBool(b) => if b then "true" else "false"
    case JNumber(n) => IntToString(n)
    case JString(s) => s
    case JObject => "[object Object]"
  }

  /** `parseInt(s, 10)`: leading whitespace, an optional sign, then the
      longest run of decimal digits; `None` is NaN. */
  function ParseInt(s: string): Option<int>
  {
    var u := TrimStart(s);
    var neg := u != [] && u[0] == '-';
    var v := if u != [] && (u[0] == '-' || u[0] == '+') then u[1..] else u;
    var d := DigitRun(v);
    var n: int := DigitsValue(d);
    if d == [] then None else Some(if neg then -n else n)
  }

  lemma {:induction false} DigitRunOfDigits(s: string)
    requires AllDigits(s)
    ensures DigitRun(s) == s
  {
    if s != [] {
      DigitRunOfDigits(s[1..]);
    }
  }

  /** A plain run of digits reads as its decimal value. */
  lemma ParseIntOfDigits(s: string)
    requires AllDigits(s) && s != []
    ensures ParseInt(s) == Some(DigitsValue(s))
  {
    assert !IsWhitespace(s[0]);
    assert TrimStart(s) == s;
    assert s[0] != '-' && s[0] != '+';
    DigitRunOfDigits(s);
  }
}
